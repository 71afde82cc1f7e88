/**
 * Helpers shared by the game state: turning a set into a sorted,
 * comma-separated string, and finding every index at which a one-letter
 * pattern occurs in a string.
 */
module Utility {

  /** A value that may be missing (the source's `null`). */
  datatype Option<T> = None | Some(value: T)

  /** The parts' lengths added up. */
  function TotalLength(parts: seq<string>): nat
  {
    if |parts| == 0 then 0 else |parts[0]| + TotalLength(parts[1..])
  }

  /**
   * `Array.prototype.join`: the parts with `sep` between neighbours, so
   * one separator fewer than there are parts.
   */
  function Join(parts: seq<string>, sep: string): (r: string)
    ensures |parts| == 0 ==> r == ""
    ensures |parts| > 0 ==> |r| == TotalLength(parts) + (|parts| - 1) * |sep|
  {
    if |parts| == 0 then ""
    else if |parts| == 1 then parts[0]
    else parts[0] + sep + Join(parts[1..], sep)
  }

  /** Joining read from the left: the last part follows the others' join and one separator. */
  lemma {:induction false} JoinAppend(parts: seq<string>, x: string, sep: string)
    requires |parts| > 0
    ensures Join(parts + [x], sep) == Join(parts, sep) + sep + x
    decreases |parts|
  {
    if |parts| == 1 {
      assert (parts + [x])[1..] == [x];
    } else {
      assert (parts + [x])[1..] == parts[1..] + [x];
      JoinAppend(parts[1..], x, sep);
    }
  }

  // ---------------------------------------------------------------------
  // The order `Array.prototype.sort` uses on strings: code unit by code
  // unit, a proper prefix first.
  // ---------------------------------------------------------------------

  predicate Below(a: string, b: string)
  {
    if |a| == 0 then |b| > 0
    else if |b| == 0 then false
    else a[0] < b[0] || (a[0] == b[0] && Below(a[1..], b[1..]))
  }

  lemma {:induction false} BelowIrreflexive(a: string)
    ensures !Below(a, a)
  {
    if |a| > 0 {
      BelowIrreflexive(a[1..]);
    }
  }

  lemma {:induction false} BelowTransitive(a: string, b: string, c: string)
    requires Below(a, b) && Below(b, c)
    ensures Below(a, c)
  {
    if |a| > 0 && |b| > 0 && |c| > 0 && a[0] == b[0] && b[0] == c[0] {
      BelowTransitive(a[1..], b[1..], c[1..]);
    }
  }

  lemma {:induction false} BelowTotal(a: string, b: string)
    requires a != b
    ensures Below(a, b) || Below(b, a)
  {
    if |a| > 0 && |b| > 0 && a[0] == b[0] {
      assert a == [a[0]] + a[1..] && b == [b[0]] + b[1..];
      BelowTotal(a[1..], b[1..]);
    }
  }

  lemma BelowAsymmetric(a: string, b: string)
    requires Below(a, b)
    ensures !Below(b, a)
  {
    if Below(b, a) {
      BelowTransitive(a, b, a);
      BelowIrreflexive(a);
    }
  }

  /** Every element is strictly below every later one (so all are distinct). */
  predicate StrictlyAscending(xs: seq<string>)
  {
    forall i, j :: 0 <= i < j < |xs| ==> Below(xs[i], xs[j])
  }

  /** `m` is the least element of `s`. */
  predicate IsLeast(m: string, s: set<string>)
  {
    m in s && forall x :: x in s ==> x == m || Below(m, x)
  }

  lemma {:induction false} MinimumExists(s: set<string>)
    requires s != {}
    ensures exists m :: IsLeast(m, s)
    decreases |s|
  {
    var y :| y in s;
    if s == {y} {
      assert IsLeast(y, s);
    } else {
      MinimumExists(s - {y});
      var m :| IsLeast(m, s - {y});
      if Below(y, m) {
        forall x | x in s
          ensures x == y || Below(y, x)
        {
          if x != y && x != m {
            BelowTransitive(y, m, x);
          }
        }
        assert IsLeast(y, s);
      } else {
        BelowTotal(y, m);
        assert IsLeast(m, s);
      }
    }
  }

  /** The elements of `s` in ascending order: what sorting them yields. */
  ghost function Ordered(s: set<string>): (xs: seq<string>)
    ensures StrictlyAscending(xs)
    ensures forall x :: x in xs <==> x in s
    ensures |xs| == |s|
    decreases |s|
  {
    if s == {} then []
    else
      MinimumExists(s);
      var m :| IsLeast(m, s);
      var rest := Ordered(s - {m});
      assert forall j :: 0 <= j < |rest| ==> Below(m, rest[j]) by {
        forall j | 0 <= j < |rest|
          ensures Below(m, rest[j])
        {
          assert rest[j] in s - {m};
        }
      }
      [m] + rest
  }

  /** Two ascending sequences with the same elements are the same sequence. */
  lemma {:induction false} AscendingUnique(xs: seq<string>, ys: seq<string>)
    requires StrictlyAscending(xs) && StrictlyAscending(ys)
    requires forall x :: x in xs <==> x in ys
    ensures xs == ys
  {
    assert xs == [] <==> ys == [] by {
      if xs != [] { assert xs[0] in ys; }
      if ys != [] { assert ys[0] in xs; }
    }
    if xs != [] {
      if xs[0] != ys[0] {
        assert xs[0] in ys && ys[0] in xs;
        assert Below(ys[0], xs[0]) by {
          var k :| 0 <= k < |ys| && ys[k] == xs[0];
        }
        assert Below(xs[0], ys[0]) by {
          var k :| 0 <= k < |xs| && xs[k] == ys[0];
        }
        BelowAsymmetric(xs[0], ys[0]);
      }
      forall x
        ensures x in xs[1..] <==> x in ys[1..]
      {
        if x in xs[1..] {
          var k :| 1 <= k < |xs| && xs[k] == x;
          assert Below(xs[0], x);
          BelowIrreflexive(x);
          assert x in ys by { assert xs[k] in xs; }
          var l :| 0 <= l < |ys| && ys[l] == x;
          assert l != 0;
          assert ys[1..][l - 1] == x;
        }
        if x in ys[1..] {
          var k :| 1 <= k < |ys| && ys[k] == x;
          assert Below(ys[0], x);
          BelowIrreflexive(x);
          assert x in xs by { assert ys[k] in ys; }
          var l :| 0 <= l < |xs| && xs[l] == x;
          assert l != 0;
          assert xs[1..][l - 1] == x;
        }
      }
      AscendingUnique(xs[1..], ys[1..]);
    }
  }

  /** Puts `x` into its place in the ascending sequence `xs`. */
  method Insert(xs: seq<string>, x: string) returns (ys: seq<string>)
    requires StrictlyAscending(xs) && x !in xs
    ensures StrictlyAscending(ys)
    ensures forall y :: y in ys <==> y in xs || y == x
  {
    var k := 0;
    while k < |xs| && Below(xs[k], x)
      invariant 0 <= k <= |xs|
      invariant forall i :: 0 <= i < k ==> Below(xs[i], x)
    {
      k := k + 1;
    }
    if k < |xs| {
      BelowTotal(xs[k], x);
      forall j | k < j < |xs|
        ensures Below(x, xs[j])
      {
        BelowTransitive(x, xs[k], xs[j]);
      }
    }
    ys := xs[..k] + [x] + xs[k..];
    assert forall y :: y in ys <==> y in xs[..k] || y == x || y in xs[k..];
    assert xs == xs[..k] + xs[k..];
  }

  /** Sorts distinct strings into ascending order, one insertion at a time. */
  method Sort(a: seq<string>) returns (b: seq<string>)
    requires forall i, j :: 0 <= i < j < |a| ==> a[i] != a[j]
    ensures StrictlyAscending(b)
    ensures forall x :: x in b <==> x in a
  {
    b := [];
    for i := 0 to |a|
      invariant StrictlyAscending(b)
      invariant forall x :: x in b <==> x in a[..i]
    {
      assert a[i] !in a[..i];
      b := Insert(b, a[i]);
      assert a[..i + 1] == a[..i] + [a[i]];
    }
    assert a[..|a|] == a;
  }

  /**
   * `setToString`: copies the set's elements into an array, in whatever
   * order the set yields them, sorts the array and joins it with commas.
   */
  method SetToString(s: set<string>) returns (r: string)
    ensures r == Join(Ordered(s), ",")
  {
    var ar: seq<string> := [];
    var rest := s;
    while rest != {}
      invariant rest <= s
      invariant forall x :: x in ar <==> x in s && x !in rest
      invariant forall i, j :: 0 <= i < j < |ar| ==> ar[i] != ar[j]
      decreases |rest|
    {
      var el :| el in rest;
      ar := ar + [el];
      rest := rest - {el};
    }
    var sorted := Sort(ar);
    AscendingUnique(sorted, Ordered(s));
    r := Join(sorted, ",");
  }

  lemma SetToStringOfEmpty()
    ensures Join(Ordered({}), ",") == ""
  {
  }

  /** Two guesses shown in ascending order, whichever came first. */
  lemma SetToStringOfTwoLetters()
    ensures Join(Ordered({"b", "a"}), ",") == "a,b"
  {
    var xs := ["a", "b"];
    assert Below("a", "b");
    assert StrictlyAscending(xs);
    AscendingUnique(xs, Ordered({"b", "a"}));
  }

  // ---------------------------------------------------------------------
  // Searching a string for one literal character.
  // ---------------------------------------------------------------------

  /** The indices at or after `k` where `s` holds `c`, in ascending order. */
  function OccurrencesFrom(s: string, c: char, k: nat): (r: seq<nat>)
    requires k <= |s|
    ensures |r| <= |s| - k
    ensures forall i :: 0 <= i < |r| ==> k <= r[i] < |s| && s[r[i]] == c
    ensures forall i, j :: 0 <= i < j < |r| ==> r[i] < r[j]
    decreases |s| - k
  {
    if k == |s| then []
    else if s[k] == c then [k] + OccurrencesFrom(s, c, k + 1)
    else OccurrencesFrom(s, c, k + 1)
  }

  /** No index at or after `k` that holds `c` is missed. */
  lemma {:induction false} OccurrencesFromComplete(s: string, c: char, k: nat)
    requires k <= |s|
    ensures forall i :: k <= i < |s| && s[i] == c ==> i in OccurrencesFrom(s, c, k)
    decreases |s| - k
  {
    if k < |s| {
      OccurrencesFromComplete(s, c, k + 1);
    }
  }

  function Occurrences(s: string, c: char): seq<nat>
  {
    OccurrencesFrom(s, c, 0)
  }

  lemma OccurrencesMembers(s: string, c: char)
    ensures forall i :: i in Occurrences(s, c) <==> 0 <= i < |s| && s[i] == c
    ensures |Occurrences(s, c)| == 0 <==> c !in s
  {
    var r := Occurrences(s, c);
    OccurrencesFromComplete(s, c, 0);
    forall i | i in r
      ensures 0 <= i < |s| && s[i] == c
    {
      var k :| 0 <= k < |r| && r[k] == i;
    }
    forall i | 0 <= i < |s| && s[i] == c
      ensures i in r
    {
    }
    if c in s {
      var i :| 0 <= i < |s| && s[i] == c;
      assert i in r;
    }
    if |r| > 0 {
      assert s[r[0]] == c;
    }
  }

  /**
   * What `multiSearch` returns: null for a null source, `[0]` for a null
   * pattern, otherwise every index of the pattern's letter, or null when
   * there is none.
   */
  function SearchResult(source: Option<string>, letter: Option<char>): (r: Option<seq<nat>>)
    ensures source.None? ==> r.None?
    ensures source.Some? && letter.None? ==> r == Some([0])
    ensures source.Some? && letter.Some? ==> (r.None? <==> letter.value !in source.value)
    ensures source.Some? && letter.Some? && r.Some? ==>
      && 0 < |r.value| <= |source.value|
      && (forall i, j :: 0 <= i < j < |r.value| ==> r.value[i] < r.value[j])
      && (forall i :: i in r.value <==> 0 <= i < |source.value| && source.value[i] == letter.value)
  {
    match source
    case None => None
    case Some(s) =>
      match letter
      case None => Some([0])
      case Some(c) =>
        OccurrencesMembers(s, c);
        var found := Occurrences(s, c);
        if |found| == 0 then None else Some(found)
  }

  /**
   * A global regular expression built from one literal character, with the
   * `lastIndex` cursor that `exec` reads and moves.
   */
  class RegexPattern {
    const source: char
    var lastIndex: nat

    constructor(letter: char)
      ensures source == letter && lastIndex == 0
    {
      source := letter;
      lastIndex := 0;
    }

    /**
     * `exec` on a global pattern: the first match at or after `lastIndex`;
     * on a match the cursor moves past it, otherwise it returns to 0.
     */
    method Exec(s: string) returns (m: Option<nat>)
      modifies this
      ensures old(lastIndex) > |s| ==> m.None?
      ensures old(lastIndex) <= |s| ==>
        m == (var rest := OccurrencesFrom(s, source, old(lastIndex));
              if |rest| == 0 then None else Some(rest[0]))
      ensures lastIndex == if m.Some? then m.value + 1 else 0
    {
      if lastIndex > |s| {
        m := None;
      } else {
        var rest := OccurrencesFrom(s, source, lastIndex);
        m := if |rest| == 0 then None else Some(rest[0]);
      }
      lastIndex := if m.Some? then m.value + 1 else 0;
    }
  }

  /** The matches from `k` are the first of them followed by the matches after it. */
  lemma {:induction false} OccurrencesFromHead(s: string, c: char, k: nat)
    requires k <= |s| && |OccurrencesFrom(s, c, k)| > 0
    ensures OccurrencesFrom(s, c, k)[0] < |s|
    ensures OccurrencesFrom(s, c, k) == [OccurrencesFrom(s, c, k)[0]] + OccurrencesFrom(s, c, OccurrencesFrom(s, c, k)[0] + 1)
    decreases |s| - k
  {
    if s[k] != c {
      assert OccurrencesFrom(s, c, k) == OccurrencesFrom(s, c, k + 1);
      OccurrencesFromHead(s, c, k + 1);
    }
  }

  /** The `while (match = exec(...))` loop: every match from the cursor on. */
  method ExecAll(s: string, pattern: RegexPattern) returns (found: seq<nat>)
    requires pattern.lastIndex == 0
    modifies pattern
    ensures found == Occurrences(s, pattern.source)
  {
    found := [];
    while true
      invariant pattern.lastIndex <= |s|
      invariant found + OccurrencesFrom(s, pattern.source, pattern.lastIndex) == Occurrences(s, pattern.source)
      decreases |s| - pattern.lastIndex
    {
      ghost var from := pattern.lastIndex;
      ghost var rest := OccurrencesFrom(s, pattern.source, from);
      var m := pattern.Exec(s);
      if m.None? {
        assert rest == [];
        break;
      }
      OccurrencesFromHead(s, pattern.source, from);
      assert found + rest == (found + [m.value]) + OccurrencesFrom(s, pattern.source, m.value + 1);
      found := found + [m.value];
    }
  }

  /**
   * `multiSearch`: saves the pattern's cursor, collects the index of every
   * `exec` match from the start of the string, and restores the cursor.
   */
  method MultiSearch(sourceString: Option<string>, regexPattern: RegexPattern?)
    returns (indices: Option<seq<nat>>)
    modifies regexPattern
    ensures indices == SearchResult(sourceString, if regexPattern == null then None else Some(regexPattern.source))
    ensures regexPattern != null ==> regexPattern.lastIndex == old(regexPattern.lastIndex)
  {
    if sourceString.None? {
      return None;
    }
    if regexPattern == null {
      return Some([0]);
    }
    var savedIndex := regexPattern.lastIndex;
    regexPattern.lastIndex := 0;
    var found := ExecAll(sourceString.value, regexPattern);
    indices := if |found| == 0 then None else Some(found);
    regexPattern.lastIndex := savedIndex;
  }
}
