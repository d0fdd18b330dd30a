/**
 * Instance-slot and core-copy bookkeeping of `LibretroContext::launch`.
 *
 * Every running instance owns one of MAX_INSTANCES statically generated
 * callback trampolines (its "instance number") and one copy index of its core
 * binary.  Copy 0 is the original DLL; a copy index above 0 makes the host load
 * a duplicate of the DLL under a name derived from the original, so that two
 * instances of one core never share a loaded image.
 */
module InstanceAllocation {
  import opened Wrappers

  const MAX_INSTANCES: nat := 100
  const MAX_INSTANCES_PER_CORE: nat := 8 * 8
  /** What `TBitArray::FindAndSetFirstZeroBit` returns when every bit is set. */
  const INDEX_NONE: int := -1

  /** The lowest clear bit of `bits`, if any. */
  function FirstZero(bits: seq<bool>): (r: Option<nat>)
    ensures r.Some? ==> r.value < |bits| && !bits[r.value] && forall j :: 0 <= j < r.value ==> bits[j]
    ensures r.None? <==> forall j :: 0 <= j < |bits| ==> bits[j]
  {
    if bits == [] then None
    else if !bits[0] then Some(0)
    else match FirstZero(bits[1..])
      case None => None
      case Some(i) => Some(i + 1)
  }

  /**
   * `TBitArray::FindAndSetFirstZeroBit` on a bitmap held by value: the index of
   * the lowest clear bit (INDEX_NONE when there is none) and the bitmap with
   * that bit set.
   */
  method FindAndSetFirstZeroBit(bits: seq<bool>) returns (index: int, updated: seq<bool>)
    ensures index == INDEX_NONE <==> forall j :: 0 <= j < |bits| ==> bits[j]
    ensures index != INDEX_NONE ==>
      0 <= index < |bits| && !bits[index] && (forall j :: 0 <= j < index ==> bits[j])
      && updated == bits[index := true]
    ensures index == INDEX_NONE ==> updated == bits
  {
    var i := 0;
    while i < |bits| && bits[i]
      invariant 0 <= i <= |bits|
      invariant forall j :: 0 <= j < i ==> bits[j]
    {
      i := i + 1;
    }
    if i == |bits| {
      index, updated := INDEX_NONE, bits;
    } else {
      index, updated := i, bits[i := true];
    }
  }

  /** The bitmap `FindOrAdd` installs for a core path seen for the first time. */
  function EmptyCoreBitmap(): (bits: seq<bool>)
    ensures |bits| == MAX_INSTANCES_PER_CORE && forall j :: 0 <= j < |bits| ==> !bits[j]
  {
    seq(MAX_INSTANCES_PER_CORE, _ => false)
  }

  /** `PerCoreAllocatedInstances.FindOrAdd(core, <all clear>)`, as the resulting map. */
  function FindOrAdd(perCore: map<string, seq<bool>>, core: string): (m: map<string, seq<bool>>)
    ensures core in m && m.Keys == perCore.Keys + {core}
    ensures forall c :: c in perCore ==> m[c] == perCore[c]
    ensures core !in perCore ==> m[core] == EmptyCoreBitmap()
  {
    if core in perCore then perCore else perCore[core := EmptyCoreBitmap()]
  }

  /** One live instance: its core path, its trampoline slot and its copy index. */
  datatype Allocation = Allocation(core: string, instance: nat, copy: nat)

  /** The two capacity errors a launch can meet. */
  datatype AllocError = NoFreeCoreCopy | NoFreeInstance

  /**
   * The bitmaps have their fixed sizes, every live allocation holds its two
   * bits, and no two live allocations share an instance number, nor a copy
   * index of the same core.
   */
  ghost predicate TablesValid(slots: seq<bool>, perCore: map<string, seq<bool>>, live: set<Allocation>)
  {
    && |slots| == MAX_INSTANCES
    && (forall c :: c in perCore ==> |perCore[c]| == MAX_INSTANCES_PER_CORE)
    && (forall a :: a in live ==>
          && a.instance < MAX_INSTANCES && slots[a.instance]
          && a.core in perCore && a.copy < MAX_INSTANCES_PER_CORE && perCore[a.core][a.copy])
    && (forall a, b :: a in live && b in live && a != b ==>
          a.instance != b.instance && (a.core == b.core ==> a.copy != b.copy))
  }

  /** The lowest clear bit is the one a scan stops at. */
  lemma FirstZeroAt(bits: seq<bool>, i: nat)
    requires i < |bits| && !bits[i] && forall j :: 0 <= j < i ==> bits[j]
    ensures FirstZero(bits) == Some(i)
  {
  }

  /** Adding an all-clear bitmap for a new core keeps the tables valid. */
  lemma FindOrAddKeepsValid(slots: seq<bool>, perCore: map<string, seq<bool>>, live: set<Allocation>, core: string)
    requires TablesValid(slots, perCore, live)
    ensures TablesValid(slots, FindOrAdd(perCore, core), live)
  {
  }

  /**
   * Committing an allocation on a clear instance bit and a clear copy bit
   * keeps the tables valid, and the allocation was not live before.
   */
  lemma CommitKeepsValid(slots: seq<bool>, perCore: map<string, seq<bool>>, live: set<Allocation>, a: Allocation)
    requires TablesValid(slots, perCore, live) && a.core in perCore
    requires a.instance < |slots| && !slots[a.instance]
    requires a.copy < |perCore[a.core]| && !perCore[a.core][a.copy]
    ensures a !in live
    ensures TablesValid(slots[a.instance := true], perCore[a.core := perCore[a.core][a.copy := true]], live + {a})
  {
    var slots', perCore' := slots[a.instance := true], perCore[a.core := perCore[a.core][a.copy := true]];
    forall b | b in live + {a}
      ensures b.instance < MAX_INSTANCES && slots'[b.instance]
      ensures b.core in perCore' && b.copy < MAX_INSTANCES_PER_CORE && perCore'[b.core][b.copy]
    {
      if b != a && b.core == a.core {
        assert perCore'[b.core][b.copy] == perCore[b.core][b.copy];
      }
    }
    forall b, b' | b in live + {a} && b' in live + {a} && b != b'
      ensures b.instance != b'.instance && (b.core == b'.core ==> b.copy != b'.copy)
    {
      if b == a {
        assert slots[b'.instance] && perCore[b'.core][b'.copy];
      } else if b' == a {
        assert slots[b.instance] && perCore[b.core][b.copy];
      }
    }
  }

  /**
   * The process-wide allocation tables `AllocatedInstances` and
   * `PerCoreAllocatedInstances`, which `MultipleDLLInstanceHandlingLock`
   * guards.  `live` is the set of allocations handed out and not yet released.
   */
  class Allocator {
    var slots: seq<bool>
    var perCore: map<string, seq<bool>>
    ghost var live: set<Allocation>

    ghost predicate Valid()
      reads this
    {
      TablesValid(slots, perCore, live)
    }

    /** The tables at process start: every bit clear, no core seen yet. */
    constructor ()
      ensures Valid()
      ensures slots == seq(MAX_INSTANCES, _ => false) && perCore == map[] && live == {}
    {
      slots := seq(MAX_INSTANCES, _ => false);
      perCore := map[];
      live := {};
    }

    /**
     * The locked block of `launch`: find-or-add the core's bitmap, then take
     * the lowest clear copy index and the lowest clear instance number.  The
     * allocation is committed only when BOTH are available; otherwise nothing
     * but the `FindOrAdd` entry changes and the capacity error is returned.
     */
    method Acquire(core: string) returns (r: Result<Allocation, AllocError>)
      requires Valid()
      modifies this
      ensures Valid()
      ensures r.Success? ==>
        var a := r.value;
        var before := FindOrAdd(old(perCore), core)[core];
        && a.core == core
        && FirstZero(before) == Some(a.copy)
        && FirstZero(old(slots)) == Some(a.instance)
        && slots == old(slots)[a.instance := true]
        && perCore == FindOrAdd(old(perCore), core)[core := before[a.copy := true]]
        && live == old(live) + {a}
        && a !in old(live)
      ensures r.Failure? ==>
        && slots == old(slots) && perCore == FindOrAdd(old(perCore), core) && live == old(live)
        && (r.error == NoFreeCoreCopy <==> FirstZero(FindOrAdd(old(perCore), core)[core]).None?)
        && (r.error == NoFreeInstance ==> FirstZero(old(slots)).None?)
    {
      FindOrAddKeepsValid(slots, perCore, live, core);
      perCore := FindOrAdd(perCore, core);
      var coreBits := perCore[core];
      var coreInstanceNumber, coreBits' := FindAndSetFirstZeroBit(coreBits);
      var instanceNumber, slots' := FindAndSetFirstZeroBit(slots);
      if coreInstanceNumber == INDEX_NONE {
        r := Failure(NoFreeCoreCopy);
      } else if instanceNumber == INDEX_NONE {
        FirstZeroAt(coreBits, coreInstanceNumber);
        r := Failure(NoFreeInstance);
      } else {
        var a := Allocation(core, instanceNumber, coreInstanceNumber);
        FirstZeroAt(coreBits, coreInstanceNumber);
        FirstZeroAt(slots, instanceNumber);
        CommitKeepsValid(slots, perCore, live, a);
        slots := slots';
        perCore := perCore[core := coreBits'];
        live := live + {a};
        r := Success(a);
      }
    }

    /** The locked block at the end of the instance thread: clear exactly the two bits. */
    method Release(a: Allocation)
      requires Valid() && a in live
      modifies this
      ensures Valid()
      ensures slots == old(slots)[a.instance := false]
      ensures perCore == old(perCore)[a.core := old(perCore)[a.core][a.copy := false]]
      ensures live == old(live) - {a}
    {
      slots := slots[a.instance := false];
      perCore := perCore[a.core := perCore[a.core][a.copy := false]];
      live := live - {a};
    }
  }

  // ---------------------------------------------------------------------------
  // The launch check as the source writes it (a finding; see README).

  /** `check(CoreInstanceNumber != INDEX_NONE || InstanceNumber != INDEX_NONE)`. */
  function LaunchCheckAsWritten(coreInstanceNumber: int, instanceNumber: int): (passes: bool)
    ensures passes <==> !(coreInstanceNumber == INDEX_NONE && instanceNumber == INDEX_NONE)
  {
    coreInstanceNumber != INDEX_NONE || instanceNumber != INDEX_NONE
  }

  /**
   * With all 64 copies of one core live and trampoline slots still free, the
   * check as written lets the launch go on with copy index INDEX_NONE.
   */
  lemma AsWrittenCheckPassesWithFullCore(slots: seq<bool>, coreBits: seq<bool>)
    requires |coreBits| == MAX_INSTANCES_PER_CORE && forall j :: 0 <= j < |coreBits| ==> coreBits[j]
    requires |slots| == MAX_INSTANCES && !slots[0]
    ensures FirstZero(coreBits).None? && FirstZero(slots).Some?
    ensures LaunchCheckAsWritten(INDEX_NONE, FirstZero(slots).value)
  {
  }

  /**
   * With all 100 trampoline slots live, the check as written lets a launch of
   * a core with free copies go on with instance number INDEX_NONE.
   */
  lemma AsWrittenCheckPassesWithFullTable(slots: seq<bool>, perCore: map<string, seq<bool>>, core: string)
    requires |slots| == MAX_INSTANCES && forall j :: 0 <= j < |slots| ==> slots[j]
    requires core !in perCore
    ensures FirstZero(slots).None? && FirstZero(FindOrAdd(perCore, core)[core]) == Some(0)
    ensures LaunchCheckAsWritten(0, INDEX_NONE)
  {
  }

  // ---------------------------------------------------------------------------
  // The file name of a duplicated core.

  predicate IsSeparator(c: char) { c == '/' || c == '\\' }

  /**
   * The index of the dot that starts the extension: the last '.' after the
   * last separator.  With none, every '.' of the path has a separator after it.
   */
  function ExtensionDot(path: string): (r: Option<nat>)
    ensures r.Some? ==> r.value < |path| && path[r.value] == '.'
    ensures r.Some? ==> forall j :: r.value < j < |path| ==> path[j] != '.' && !IsSeparator(path[j])
    ensures r.None? ==> forall j :: 0 <= j < |path| && path[j] == '.' ==>
      exists k :: j < k < |path| && IsSeparator(path[k])
  {
    if path == [] then None
    else if path[|path| - 1] == '.' then Some(|path| - 1)
    else if IsSeparator(path[|path| - 1]) then None
    else
      var r := ExtensionDot(path[..|path| - 1]);
      assert forall j :: 0 <= j < |path| - 1 ==> path[..|path| - 1][j] == path[j];
      r
  }

  /** `FPaths::GetBaseFilename(path, false)`: the path without its extension. */
  function BaseFilename(path: string): (r: string)
    ensures |r| <= |path| && r == path[..|r|]
    ensures |r| < |path| ==> path[|r|] == '.' && forall j :: |r| < j < |path| ==> path[j] != '.' && !IsSeparator(path[j])
    ensures ExtensionDot(path).None? ==> r == path
  {
    match ExtensionDot(path)
    case Some(i) => path[..i]
    case None => path
  }

  /** `FPaths::GetExtension(path)`: the extension without its dot, or "". */
  function Extension(path: string): (r: string)
    ensures |r| < |path| || (r == [] && path == [])
    ensures r == path[|path| - |r|..]
    ensures forall j :: 0 <= j < |r| ==> r[j] != '.' && !IsSeparator(r[j])
    ensures r != [] ==> path[|path| - |r| - 1] == '.'
  {
    match ExtensionDot(path)
    case Some(i) => path[i + 1..]
    case None => ""
  }

  function DigitChar(d: nat): (c: char)
    requires d < 10
    ensures '0' <= c <= '9' && DigitValue(c) == d
  {
    ('0' as int + d) as char
  }

  /** The number a decimal digit stands for. */
  function DigitValue(c: char): int
  {
    c as int - '0' as int
  }

  /** The number a string of decimal digits spells, most significant digit first. */
  function DecimalValue(s: string): nat
    requires forall i :: 0 <= i < |s| ==> '0' <= s[i] <= '9'
  {
    if s == [] then 0 else DecimalValue(s[..|s| - 1]) * 10 + DigitValue(s[|s| - 1])
  }

  /** The decimal spelling `%d` produces for a non-negative number. */
  function Decimal(n: nat): (s: string)
    ensures |s| >= 1 && forall i :: 0 <= i < |s| ==> '0' <= s[i] <= '9'
    ensures n < 10 <==> |s| == 1
  {
    if n < 10 then [DigitChar(n)] else Decimal(n / 10) + [DigitChar(n % 10)]
  }

  /** `%d` spells the number it prints. */
  lemma {:induction false} DecimalSpells(n: nat)
    ensures DecimalValue(Decimal(n)) == n
  {
    var d := Decimal(n);
    if n < 10 {
      assert d[..0] == [];
    } else {
      DecimalLast(n);
      DecimalSpells(n / 10);
    }
  }

  /** The path `launch` loads for copy index `copy` of `core`. */
  function InstancedCorePath(core: string, copy: nat): (r: string)
    ensures copy == 0 ==> r == core
    ensures copy > 0 ==>
      var b, d := |BaseFilename(core)|, |Decimal(copy)|;
      |r| >= b + d && r[..b] == BaseFilename(core)
      && (forall i :: b <= i < b + d ==> '0' <= r[i] <= '9')
      && DecimalValue(r[b..b + d]) == copy
      && r[b + d..] == "." + Extension(core)
  {
    if copy > 0 then
      var base, digits, tail := BaseFilename(core), Decimal(copy), "." + Extension(core);
      ThreeParts(base, digits, tail);
      DecimalSpells(copy);
      base + digits + tail
    else core
  }

  /** Each part of a three-part concatenation is found where it was put. */
  lemma ThreeParts(x: string, y: string, z: string)
    ensures var s := x + y + z;
      |s| == |x| + |y| + |z| && s[..|x|] == x && s[|x|..|x| + |y|] == y && s[|x| + |y|..] == z
  {
    var s := x + y + z;
    assert s[..|x|] == x;
    assert s[|x|..|x| + |y|] == y;
    assert s[|x| + |y|..] == z;
  }

  /** The last digit of a number of two or more digits follows the spelling of the rest. */
  lemma DecimalLast(n: nat)
    requires n >= 10
    ensures var d := Decimal(n); |d| >= 2 && d[..|d| - 1] == Decimal(n / 10) && d[|d| - 1] == DigitChar(n % 10)
  {
    var prefix := Decimal(n / 10);
    assert Decimal(n) == prefix + [DigitChar(n % 10)];
    assert (prefix + [DigitChar(n % 10)])[..|prefix|] == prefix;
  }

  lemma DigitCharInjective(a: nat, b: nat)
    requires a < 10 && b < 10 && DigitChar(a) == DigitChar(b)
    ensures a == b
  {
  }

  lemma {:induction false} DecimalInjective(a: nat, b: nat)
    requires Decimal(a) == Decimal(b)
    ensures a == b
  {
    if a >= 10 && b >= 10 {
      DecimalLast(a);
      DecimalLast(b);
      DecimalInjective(a / 10, b / 10);
      DigitCharInjective(a % 10, b % 10);
    } else if a < 10 && b < 10 {
      DigitCharInjective(a, b);
    }
  }

  /** The path splits into base, and dot plus extension when there is a dot. */
  lemma BaseAndExtension(path: string)
    ensures ExtensionDot(path).Some? ==> path == BaseFilename(path) + "." + Extension(path)
    ensures ExtensionDot(path).None? ==> path == BaseFilename(path) && Extension(path) == ""
  {
    match ExtensionDot(path)
    case Some(i) =>
      assert path == path[..i] + [path[i]] + path[i + 1..];
    case None =>
  }

  /** The index of the first '.' of `s`, or |s| when there is none. */
  function FirstDot(s: string): (r: nat)
    ensures r <= |s| && (r < |s| ==> s[r] == '.') && forall j :: 0 <= j < r ==> s[j] != '.'
  {
    if s == [] then 0 else if s[0] == '.' then 0 else 1 + FirstDot(s[1..])
  }

  /** In a digit string followed by a dot, the first dot ends the digits. */
  lemma FirstDotAfterDigits(d: string, t: string)
    requires forall i :: 0 <= i < |d| ==> '0' <= d[i] <= '9'
    requires |t| > 0 && t[0] == '.'
    ensures FirstDot(d + t) == |d|
  {
    assert (d + t)[|d|] == '.';
    assert forall j :: 0 <= j < |d| ==> (d + t)[j] == d[j];
  }

  /** Two all-digit strings each followed by a '.' can only meet if they are equal. */
  lemma DigitsBeforeDot(d1: string, d2: string, t1: string, t2: string)
    requires forall i :: 0 <= i < |d1| ==> '0' <= d1[i] <= '9'
    requires forall i :: 0 <= i < |d2| ==> '0' <= d2[i] <= '9'
    requires |t1| > 0 && t1[0] == '.' && |t2| > 0 && t2[0] == '.'
    requires d1 + t1 == d2 + t2
    ensures d1 == d2
  {
    FirstDotAfterDigits(d1, t1);
    FirstDotAfterDigits(d2, t2);
    assert d1 == (d1 + t1)[..|d1|];
    assert d2 == (d2 + t2)[..|d2|];
  }

  /** A duplicated copy's path is longer than the original path. */
  lemma CopyPathLonger(core: string, k: nat)
    requires k > 0
    ensures |InstancedCorePath(core, k)| > |core|
  {
    BaseAndExtension(core);
  }

  /** A duplicated copy's path: the base, the copy index, and the dot and extension. */
  lemma CopyPathShape(core: string, k: nat)
    requires k > 0
    ensures InstancedCorePath(core, k) == BaseFilename(core) + (Decimal(k) + ("." + Extension(core)))
  {
  }

  lemma PrefixCancel(p: string, s: string, t: string)
    requires p + s == p + t
    ensures s == t
  {
    assert s == (p + s)[|p|..];
    assert t == (p + t)[|p|..];
  }

  /** Copy indexes above 0 that give the same path are the same index. */
  lemma CopyPathsInjective(core: string, a: nat, b: nat)
    requires 0 < a && 0 < b
    ensures InstancedCorePath(core, a) == InstancedCorePath(core, b) ==> a == b
  {
    CopyPathShape(core, a);
    CopyPathShape(core, b);
    var base, dot := BaseFilename(core), "." + Extension(core);
    if InstancedCorePath(core, a) == InstancedCorePath(core, b) {
      PrefixCancel(base, Decimal(a) + dot, Decimal(b) + dot);
      DigitsBeforeDot(Decimal(a), Decimal(b), dot, dot);
      DecimalInjective(a, b);
    }
  }

  /**
   * The duplicate name of one core can be the path of another core: copy 1 of
   * "foo.dll" and copy 0 of "foo1.dll" are both "foo1.dll".
   */
  lemma CopyPathCollidesAcrossCores()
    ensures InstancedCorePath("foo.dll", 1) == InstancedCorePath("foo1.dll", 0) == "foo1.dll"
  {
    assert "foo.dll"[..6] == "foo.dl" && "foo.dl"[..5] == "foo.d" && "foo.d"[..4] == "foo.";
    assert ExtensionDot("foo.") == Some(3);
    assert ExtensionDot("foo.d") == Some(3);
    assert ExtensionDot("foo.dl") == Some(3);
    assert ExtensionDot("foo.dll") == Some(3);
    assert DigitChar(1) == '1';
    assert Decimal(1) == "1";
  }

  /**
   * Distinct copy indexes of one core load distinct files, and a copy index
   * above 0 never loads the original: two live instances of one core never
   * share a loaded image.
   */
  lemma InstancedPathsDistinct(core: string, a: nat, b: nat)
    requires a != b
    ensures InstancedCorePath(core, a) != InstancedCorePath(core, b)
  {
    if a > 0 && b > 0 {
      CopyPathsInjective(core, a, b);
    } else if a > 0 {
      CopyPathLonger(core, a);
    } else {
      CopyPathLonger(core, b);
    }
  }
}
