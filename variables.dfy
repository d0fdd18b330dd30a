/**
 * Core-declared variables (`RETRO_ENVIRONMENT_SET_VARIABLES` and
 * `RETRO_ENVIRONMENT_GET_VARIABLE`).
 *
 * A core declares its options as an array of key/value pairs ended by an entry
 * whose key is null.  Each value follows the libretro convention
 * "Description; default|alternative|...": the default setting is the text
 * after the first ';', without its leading spaces, up to the first '|'.
 */
module Variables {
  import opened Wrappers

  /** One `struct retro_variable`; a `None` key is the null terminator. */
  datatype RetroVariable = RetroVariable(key: Option<string>, value: string)

  /** `strchr(s, c)` as an index: the first occurrence of `c`, or |s| when there is none. */
  function IndexOf(s: string, c: char): (r: nat)
    ensures r <= |s| && (r < |s| ==> s[r] == c)
    ensures forall j :: 0 <= j < r ==> s[j] != c
  {
    if s == [] then 0 else if s[0] == c then 0 else 1 + IndexOf(s[1..], c)
  }

  /** Where `advance_past_space` stops when it starts at index `i`. */
  function SkipSpaces(s: string, i: nat): (r: nat)
    requires i <= |s|
    ensures i <= r <= |s| && (r < |s| ==> s[r] != ' ')
    ensures forall j :: i <= j < r ==> s[j] == ' '
    decreases |s| - i
  {
    if i < |s| && s[i] == ' ' then SkipSpaces(s, i + 1) else i
  }

  /**
   * The values the parser is defined on: a ';' comes before the first '|'.
   * On any other value the host computes a negative length or dereferences a
   * null pointer.
   */
  predicate WellFormedValue(v: string)
  {
    IndexOf(v, ';') < IndexOf(v, '|') < |v|
  }

  /** The default setting a value string declares. */
  function DefaultOf(v: string): (d: string)
    requires WellFormedValue(v)
    ensures '|' !in d
    ensures d == [] || d[0] != ' '
  {
    var start := SkipSpaces(v, IndexOf(v, ';') + 1);
    v[start..IndexOf(v, '|')]
  }

  /**
   * The parsing lines of the `SET_VARIABLES` case: find the ';', skip the
   * spaces after it, find the first '|', and take the text in between.
   */
  method ParseDefault(value: string) returns (d: string)
    requires WellFormedValue(value)
    ensures d == DefaultOf(value)
  {
    var semicolon := 0;
    while value[semicolon] != ';'
      invariant semicolon <= IndexOf(value, ';')
      decreases IndexOf(value, ';') - semicolon
    {
      semicolon := semicolon + 1;
    }
    assert semicolon == IndexOf(value, ';');
    var start := semicolon + 1;
    while start < |value| && value[start] == ' '
      invariant semicolon + 1 <= start <= |value|
      invariant start <= SkipSpaces(value, semicolon + 1)
    {
      start := start + 1;
    }
    assert start == SkipSpaces(value, semicolon + 1);
    var delimiter := 0;
    while value[delimiter] != '|'
      invariant delimiter <= IndexOf(value, '|')
      decreases IndexOf(value, '|') - delimiter
    {
      delimiter := delimiter + 1;
    }
    assert delimiter == IndexOf(value, '|');
    d := value[start..delimiter];
  }

  function Spaces(n: nat): (s: string)
    ensures |s| == n && forall i :: 0 <= i < n ==> s[i] == ' '
  {
    seq(n, _ => ' ')
  }

  /** `advance_past_space` stops at the first non-space at or after `i`. */
  lemma SkipSpacesStops(s: string, i: nat, k: nat)
    requires i <= k <= |s| && (k < |s| ==> s[k] != ' ')
    requires forall j :: i <= j < k ==> s[j] == ' '
    ensures SkipSpaces(s, i) == k
  {
  }

  /**
   * The parser's three positions in a value laid out by the convention: a ';'
   * with no ';' or '|' before it, a run of spaces, a default without '|', and
   * the '|' that ends it.
   */
  lemma DefaultFromLayout(v: string, semicolon: nat, start: nat, bar: nat)
    requires semicolon < start <= bar < |v|
    requires v[semicolon] == ';' && v[bar] == '|' && v[start] != ' '
    requires forall j :: 0 <= j < semicolon ==> v[j] != ';' && v[j] != '|'
    requires forall j :: semicolon < j < start ==> v[j] == ' '
    requires forall j :: start <= j < bar ==> v[j] != '|'
    ensures WellFormedValue(v) && DefaultOf(v) == v[start..bar]
  {
    SkipSpacesStops(v, semicolon + 1, start);
  }

  /**
   * A value written by the convention parses back to the default it was
   * written with, whatever the description, the spacing and the alternatives.
   */
  lemma DefaultOfDeclaration(description: string, spaces: nat, default: string, alternatives: string)
    requires ';' !in description && '|' !in description
    requires '|' !in default && (default == [] || default[0] != ' ')
    ensures var v := description + ";" + Spaces(spaces) + default + "|" + alternatives;
      WellFormedValue(v) && DefaultOf(v) == default
  {
    var v := description + ";" + Spaces(spaces) + default + "|" + alternatives;
    var semicolon := |description|;
    var start := semicolon + 1 + spaces;
    var bar := start + |default|;
    forall j | 0 <= j < semicolon ensures v[j] != ';' && v[j] != '|' {
      assert v[j] == description[j];
    }
    forall j | semicolon < j < start ensures v[j] == ' ' {
      assert v[j] == Spaces(spaces)[j - semicolon - 1];
    }
    forall j | start <= j < bar ensures v[j] == default[j - start] {
    }
    assert v[start..bar] == default;
    DefaultFromLayout(v, semicolon, start, bar);
  }

  /** The array holds a null-key entry somewhere after its first entry. */
  ghost predicate HasTerminator(vars: seq<RetroVariable>)
  {
    exists t :: 1 <= t < |vars| && vars[t].key.None?
  }

  /** The first null-key entry at or after index `i`. */
  function TerminatorFrom(vars: seq<RetroVariable>, i: nat): (n: nat)
    requires i <= |vars|
    requires exists t :: i <= t < |vars| && vars[t].key.None?
    ensures i <= n < |vars| && vars[n].key.None?
    ensures forall j :: i <= j < n ==> vars[j].key.Some?
    decreases |vars| - i
  {
    if vars[i].key.None? then i else TerminatorFrom(vars, i + 1)
  }

  /**
   * How many entries the do-while loop of `SET_VARIABLES` processes: the
   * first entry always, then every entry up to the first null key after it.
   */
  function DeclaredCount(vars: seq<RetroVariable>): (n: nat)
    requires HasTerminator(vars)
    ensures 1 <= n < |vars| && vars[n].key.None?
    ensures forall j :: 1 <= j < n ==> vars[j].key.Some?
  {
    TerminatorFrom(vars, 1)
  }

  /**
   * The do-while as written on an array whose first entry is the null
   * terminator: it still processes entry 0, and so builds a key from a null
   * pointer.
   */
  lemma DoWhileTakesNullFirstKey()
    ensures var vars := [RetroVariable(None, ""), RetroVariable(None, "")];
      HasTerminator(vars) && DeclaredCount(vars) == 1 && vars[0].key.None?
  {
    var vars := [RetroVariable(None, ""), RetroVariable(None, "")];
    assert vars[1].key.None?;
  }

  /**
   * How many entries a loop that tests the key before each entry processes:
   * the entries before the first null key.
   */
  function DeclaredCountGuarded(vars: seq<RetroVariable>): (n: nat)
    requires exists t :: 0 <= t < |vars| && vars[t].key.None?
    ensures n < |vars| && vars[n].key.None?
    ensures forall j :: 0 <= j < n ==> vars[j].key.Some?
  {
    TerminatorFrom(vars, 0)
  }

  /** An array that starts with the terminator declares nothing under the guarded loop. */
  lemma GuardedCountOfEmptyArray(vars: seq<RetroVariable>)
    requires |vars| > 0 && vars[0].key.None?
    ensures DeclaredCountGuarded(vars) == 0
  {
  }

  /** With a non-null first key, the guarded loop processes exactly the entries the do-while does. */
  lemma GuardedCountMatchesDoWhile(vars: seq<RetroVariable>)
    requires HasTerminator(vars) && vars[0].key.Some?
    ensures DeclaredCountGuarded(vars) == DeclaredCount(vars)
  {
  }

  /** The arrays the host can process: a terminator, a non-null first key, parseable values. */
  ghost predicate WellFormedDeclarations(vars: seq<RetroVariable>)
  {
    && HasTerminator(vars)
    && vars[0].key.Some?
    && forall i :: 0 <= i < DeclaredCount(vars) ==> WellFormedValue(vars[i].value)
  }

  /** The (key, default setting) pairs the array declares, in array order. */
  function Declarations(vars: seq<RetroVariable>): (ds: seq<(string, string)>)
    requires WellFormedDeclarations(vars)
    ensures |ds| == DeclaredCount(vars)
    ensures forall i :: 0 <= i < |ds| ==>
      vars[i].key == Some(ds[i].0) && ds[i].1 == DefaultOf(vars[i].value)
  {
    seq(DeclaredCount(vars), i requires 0 <= i < DeclaredCount(vars) =>
      (vars[i].key.value, DefaultOf(vars[i].value)))
  }

  /** `settings[key] = default_setting` for each pair in turn. */
  function Declare(settings: map<string, string>, ds: seq<(string, string)>): (r: map<string, string>)
    ensures forall k :: k in r <==> k in settings || exists i :: 0 <= i < |ds| && ds[i].0 == k
    ensures ds != [] ==> r[ds[|ds| - 1].0] == ds[|ds| - 1].1
  {
    if ds == [] then settings
    else
      var last := ds[|ds| - 1];
      var prefix := ds[..|ds| - 1];
      assert forall i :: 0 <= i < |prefix| ==> prefix[i] == ds[i];
      Declare(settings, prefix)[last.0 := last.1]
  }

  /** Storing the next pair extends the declared prefix by one. */
  lemma DeclareNext(settings: map<string, string>, ds: seq<(string, string)>, i: nat)
    requires i < |ds|
    ensures Declare(settings, ds[..i + 1]) == Declare(settings, ds[..i])[ds[i].0 := ds[i].1]
  {
    assert ds[..i + 1][..i] == ds[..i];
  }

  /** The do-while's test after entry i: the next key is non-null exactly while entries remain. */
  lemma NextKeyContinues(vars: seq<RetroVariable>, i: nat)
    requires HasTerminator(vars) && i < DeclaredCount(vars)
    ensures vars[i + 1].key.Some? <==> i + 1 < DeclaredCount(vars)
  {
  }

  /** The value of the last pair that declares `key`, if any pair does. */
  function LastDeclared(ds: seq<(string, string)>, key: string): (r: Option<string>)
    ensures r.None? <==> forall i :: 0 <= i < |ds| ==> ds[i].0 != key
    ensures r.Some? ==>
      exists i :: (0 <= i < |ds| && ds[i] == (key, r.value) && forall j :: i < j < |ds| ==> ds[j].0 != key)
  {
    if ds == [] then None
    else if ds[|ds| - 1].0 == key then Some(ds[|ds| - 1].1)
    else
      var prefix := ds[..|ds| - 1];
      var r := LastDeclared(prefix, key);
      if r.Some? then
        ghost var i :| 0 <= i < |prefix| && prefix[i] == (key, r.value)
          && forall j :: i < j < |prefix| ==> prefix[j].0 != key;
        assert ds[i] == (key, r.value);
        r
      else r
  }

  /**
   * After declaring `ds`, a key holds the value of its last declaration; a key
   * that no pair declares keeps what it had, present or absent.
   */
  lemma {:induction false} DeclareLookup(settings: map<string, string>, ds: seq<(string, string)>, key: string)
    ensures LastDeclared(ds, key).Some? ==> Lookup(Declare(settings, ds), key) == LastDeclared(ds, key)
    ensures LastDeclared(ds, key).None? ==> Lookup(Declare(settings, ds), key) == Lookup(settings, key)
  {
    if ds != [] {
      DeclareLookup(settings, ds[..|ds| - 1], key);
      if ds[|ds| - 1].0 != key {
        assert LastDeclared(ds, key) == LastDeclared(ds[..|ds| - 1], key);
      }
    }
  }

  /**
   * After declaring `ds`, a declared key is found with the value of its last
   * declaration, and a key neither declared nor already set is not found.
   */
  lemma LookupAfterDeclare(settings: map<string, string>, ds: seq<(string, string)>, key: string)
    ensures var found := Lookup(Declare(settings, ds), key);
      && ((exists i :: 0 <= i < |ds| && ds[i].0 == key) ==>
            exists i :: 0 <= i < |ds| && ds[i].0 == key && found == Some(ds[i].1)
              && forall j :: i < j < |ds| ==> ds[j].0 != key)
      && ((forall i :: 0 <= i < |ds| ==> ds[i].0 != key) && key !in settings ==> found == None)
  {
    DeclareLookup(settings, ds, key);
    var last := LastDeclared(ds, key);
    if exists i :: 0 <= i < |ds| && ds[i].0 == key {
      var i :| 0 <= i < |ds| && ds[i] == (key, last.value) && forall j :: i < j < |ds| ==> ds[j].0 != key;
    }
  }

  /**
   * `GET_VARIABLE` after `SET_VARIABLES`: a declared key is found with the
   * default parsed from its last declaration; a key that is neither declared
   * nor already set is not found.
   */
  lemma GetAfterSetVariables(settings: map<string, string>, vars: seq<RetroVariable>, key: string)
    requires WellFormedDeclarations(vars)
    ensures var found := Lookup(Declare(settings, Declarations(vars)), key);
      && ((exists i :: 0 <= i < DeclaredCount(vars) && vars[i].key == Some(key)) ==>
            exists i :: 0 <= i < DeclaredCount(vars) && vars[i].key == Some(key)
              && found == Some(DefaultOf(vars[i].value))
              && forall j :: i < j < DeclaredCount(vars) ==> vars[j].key != Some(key))
      && ((forall i :: 0 <= i < DeclaredCount(vars) ==> vars[i].key != Some(key)) && key !in settings ==>
            found == None)
  {
    var ds := Declarations(vars);
    var n := DeclaredCount(vars);
    LookupAfterDeclare(settings, ds, key);
    assert forall i :: 0 <= i < n ==> (vars[i].key == Some(key) <==> ds[i].0 == key);
  }
}
