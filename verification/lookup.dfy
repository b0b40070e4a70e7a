/** The read-only searches of the option table: the catch-all entry, and the
    lookups by short and by long name. Each scans from the first row and stops
    at the all-null terminator. */
module Lookup {
  import opened Types

  /** `stricmp`'s case folding, over ASCII. */
  function Lower(c: char): char
  {
    if 'A' <= c <= 'Z' then (c as int + 32) as char else c
  }

  /** Two texts that `stricmp` reports equal: compared character by
      character after folding, and ending together. */
  predicate SameIgnoringCase(a: string, b: string)
    decreases |a|
  {
    if a == [] || b == [] then a == [] && b == []
    else Lower(a[0]) == Lower(b[0]) && SameIgnoringCase(a[1..], b[1..])
  }

  /** An entry whose long name equals the whole text, ignoring case. An entry
      without a long name never matches. */
  predicate LongMatches(e: OptionEntry, text: string)
  {
    e.longName.Some? && SameIgnoringCase(e.longName.value, text)
  }

  /** No row of `t[lo..hi]` (both ends included) is the terminator. */
  predicate Clear(t: seq<OptionEntry>, lo: nat, hi: nat)
    requires hi < |t|
  {
    forall i :: lo <= i <= hi ==> !IsTerminator(t[i])
  }

  /** The first row at or after `k` with neither name, or `|t|` if none. */
  function FirstNameless(t: seq<OptionEntry>, k: nat): (n: nat)
    requires k <= |t|
    decreases |t| - k
    ensures k <= n <= |t|
    ensures forall j :: k <= j < n ==> !Nameless(t[j])
    ensures n < |t| ==> Nameless(t[n])
  {
    if k == |t| then |t|
    else if Nameless(t[k]) then k
    else FirstNameless(t, k + 1)
  }

  /** `n` is the first row of `t` that has neither name. */
  predicate FirstNamelessAt(t: seq<OptionEntry>, n: nat)
  {
    n < |t| && Nameless(t[n]) && forall j :: 0 <= j < n ==> !Nameless(t[j])
  }

  /** The catch-all entry: the first row with neither name, if it has a
      callback. */
  function CheckReturnAll(t: seq<OptionEntry>): (r: Option<nat>)
    requires TableValid(t)
    ensures r.Some? ==> FirstNamelessAt(t, r.value) && t[r.value].callback.Some?
    ensures r.None? ==> exists n: nat :: FirstNamelessAt(t, n) && t[n].callback.None?
  {
    var n := FirstNameless(t, 0);
    assert n < |t| by {
      var k :| 0 <= k < |t| && IsTerminator(t[k]);
      assert n <= k;
    }
    if t[n].callback.Some? then Some(n) else None
  }

  function FindShortFrom(t: seq<OptionEntry>, c: char, k: nat): (r: Option<nat>)
    requires k <= |t|
    decreases |t| - k
    ensures r.Some? ==> k <= r.value < |t| && Clear(t, k, r.value) && t[r.value].shortName == c
    ensures r.Some? ==> forall j :: k <= j < r.value ==> t[j].shortName != c
    ensures r.None? ==> forall j :: k <= j < |t| && Clear(t, k, j) ==> t[j].shortName != c
  {
    if k == |t| || IsTerminator(t[k]) then None
    else if t[k].shortName == c then Some(k)
    else FindShortFrom(t, c, k + 1)
  }

  /** The first row before the terminator whose short name is `c`. */
  function FindShortOption(t: seq<OptionEntry>, c: char): (r: Option<nat>)
    ensures r.Some? ==> r.value < |t| && Clear(t, 0, r.value) && t[r.value].shortName == c
    ensures r.Some? ==> forall j :: 0 <= j < r.value ==> t[j].shortName != c
    ensures r.None? ==> forall j :: 0 <= j < |t| && Clear(t, 0, j) ==> t[j].shortName != c
  {
    FindShortFrom(t, c, 0)
  }

  function FindLongFrom(t: seq<OptionEntry>, text: string, k: nat): (r: Option<nat>)
    requires k <= |t|
    decreases |t| - k
    ensures r.Some? ==> k <= r.value < |t| && Clear(t, k, r.value) && LongMatches(t[r.value], text)
    ensures r.Some? ==> forall j :: k <= j < r.value ==> !LongMatches(t[j], text)
    ensures r.None? ==> forall j :: k <= j < |t| && Clear(t, k, j) ==> !LongMatches(t[j], text)
  {
    if k == |t| || IsTerminator(t[k]) then None
    else if LongMatches(t[k], text) then Some(k)
    else
      var r := FindLongFrom(t, text, k + 1);
      assert forall j :: k < j < |t| && Clear(t, k, j) ==> Clear(t, k + 1, j);
      r
  }

  /** The first row before the terminator whose long name is the whole text,
      ignoring case. There is no abbreviation and no splitting at `=`. */
  function FindLongOption(t: seq<OptionEntry>, text: string): (r: Option<nat>)
    ensures r.Some? ==> r.value < |t| && Clear(t, 0, r.value) && LongMatches(t[r.value], text)
    ensures r.Some? ==> forall j :: 0 <= j < r.value ==> !LongMatches(t[j], text)
    ensures r.None? ==> forall j :: 0 <= j < |t| && Clear(t, 0, j) ==> !LongMatches(t[j], text)
  {
    FindLongFrom(t, text, 0)
  }

  /** Equal-ignoring-case texts agree, after folding, at every position,
      and have the same length. */
  lemma {:induction false} SameIgnoringCaseAt(a: string, b: string, i: nat)
    requires SameIgnoringCase(a, b) && i < |a|
    decreases i
    ensures |a| == |b| && Lower(a[i]) == Lower(b[i])
  {
    if i > 0 {
      SameIgnoringCaseAt(a[1..], b[1..], i - 1);
    } else {
      SameIgnoringCaseLength(a, b);
    }
  }

  lemma {:induction false} SameIgnoringCaseLength(a: string, b: string)
    requires SameIgnoringCase(a, b)
    decreases |a|
    ensures |a| == |b|
  {
    if a != [] {
      SameIgnoringCaseLength(a[1..], b[1..]);
    }
  }

  /** Equality ignoring case is transitive both ways: a name equal ignoring
      case to one of two such texts is equal ignoring case to the other. */
  lemma {:induction false} SameIgnoringCaseSwap(n: string, x: string, y: string)
    requires SameIgnoringCase(x, y)
    decreases |n|
    ensures SameIgnoringCase(n, x) <==> SameIgnoringCase(n, y)
  {
    if n != [] && x != [] && y != [] {
      SameIgnoringCaseSwap(n[1..], x[1..], y[1..]);
    }
  }

  /** Folding is the only difference `stricmp` ignores: texts that differ
      only in case find the same entry. */
  lemma {:induction false} FindLongIgnoresCase(t: seq<OptionEntry>, x: string, y: string)
    requires SameIgnoringCase(x, y)
    ensures FindLongOption(t, x) == FindLongOption(t, y)
  {
    forall e: OptionEntry | e.longName.Some?
      ensures LongMatches(e, x) <==> LongMatches(e, y)
    {
      SameIgnoringCaseSwap(e.longName.value, x, y);
    }
    FindLongFromIgnoresCase(t, x, y, 0);
  }

  lemma {:induction false} FindLongFromIgnoresCase(t: seq<OptionEntry>, x: string, y: string, k: nat)
    requires k <= |t|
    requires forall e: OptionEntry :: LongMatches(e, x) <==> LongMatches(e, y)
    decreases |t| - k
    ensures FindLongFrom(t, x, k) == FindLongFrom(t, y, k)
  {
    if k < |t| && !IsTerminator(t[k]) && !LongMatches(t[k], x) {
      FindLongFromIgnoresCase(t, x, y, k + 1);
    }
  }

  /** A value given as `--name=value` is not split off: the text only finds
      an entry whose long name itself contains the `=`, at the same place. */
  lemma EqualsMustBeInName(t: seq<OptionEntry>, text: string, i: nat)
    requires i < |text| && text[i] == '='
    requires FindLongOption(t, text).Some?
    ensures var e := t[FindLongOption(t, text).value];
            i < |e.longName.value| && e.longName.value[i] == '='
  {
    var name := t[FindLongOption(t, text).value].longName.value;
    SameIgnoringCaseLength(name, text);
    SameIgnoringCaseAt(name, text, i);
  }

  // ------------------------------------------------------------------
  // The table walks as the parser runs them

  /** `checkReturnAll`: walks to the first row with neither name and keeps
      it as the catch-all when it has a callback. */
  method FindCatchAll(t: seq<OptionEntry>) returns (r: Option<nat>)
    requires TableValid(t)
    ensures r == CheckReturnAll(t)
  {
    var n := FirstNameless(t, 0);
    assert n < |t| by {
      var k :| 0 <= k < |t| && IsTerminator(t[k]);
      assert n <= k;
    }
    var k := 0;
    while !Nameless(t[k])
      invariant k <= n && FirstNameless(t, k) == n
      decreases n - k
    {
      k := k + 1;
    }
    if t[k].callback.Some? {
      r := Some(k);
    } else {
      r := None;
    }
  }

  /** `findShortOption`: the first row before the terminator with short
      name `c`. */
  method FindShort(t: seq<OptionEntry>, c: char) returns (r: Option<nat>)
    ensures r == FindShortOption(t, c)
  {
    var k := 0;
    while k < |t| && !IsTerminator(t[k])
      invariant k <= |t| && FindShortFrom(t, c, k) == FindShortOption(t, c)
      decreases |t| - k
    {
      if t[k].shortName == c {
        return Some(k);
      }
      k := k + 1;
    }
    return None;
  }

  /** `findLongOption`: the first row before the terminator whose long name
      equals `text` ignoring case. */
  method FindLong(t: seq<OptionEntry>, text: string) returns (r: Option<nat>)
    ensures r == FindLongOption(t, text)
  {
    var k := 0;
    while k < |t| && !IsTerminator(t[k])
      invariant k <= |t| && FindLongFrom(t, text, k) == FindLongOption(t, text)
      decreases |t| - k
    {
      if LongMatches(t[k], text) {
        return Some(k);
      }
      k := k + 1;
    }
    return None;
  }
}
