/** The low-level scanner: the cursor over the argument vector, the
    classification of the next token, and the lazy rotation that brings the
    next option ahead of the positional arguments already seen.

    Argument strings carry no terminator here: the C test `s[k] != 0` is
    `k < |s|`. The length of the vector stands for `argc`. A string holding
    a NUL character has no counterpart in C, and what the model does with
    one means nothing for the source. Each `char` stands for one C byte. */
module Scanner {
  import opened Types

  /** The cursor fields of the parser together with the argument vector. */
  datatype Cursor = Cursor(args: seq<string>, argi: int, chari: nat, normalOnly: bool)

  /** A classified token: its kind and the text from its start to the end
      of the argument it lies in. */
  datatype Token = Token(kind: TokenKind, text: string)

  /** The cursor after one scan, and the token, or `None` at exhaustion. */
  datatype Scanned = Scanned(cursor: Cursor, token: Option<Token>)

  /** Inside a bundle (`chari > 0`) the cursor is on a real argument (never
      the program name) and on one of its characters. */
  predicate WellFormed(c: Cursor)
  {
    0 <= c.argi && (c.chari > 0 ==> 1 <= c.argi < |c.args| && c.chari < |c.args[c.argi]|)
  }

  /** The text of a well-formed token lies in the argument under the cursor. */
  predicate TokenFits(d: Cursor, tok: Token)
  {
    0 <= d.argi < |d.args| &&
    var s := d.args[d.argi];
    match tok.kind
    case OptArg => d.chari == 0 && tok.text == s
    case OptLong => d.chari == 0 && IsLongStart(s) && tok.text == s[2..]
    case OptShort => 1 <= d.chari < |s| && tok.text == s[d.chari..]
  }

  /** The argument starts with an option-start character. */
  predicate OptionLooking(s: string, os: set<char>)
  {
    |s| > 0 && s[0] in os
  }

  /** The argument starts with the long-option marker `--`. */
  predicate IsLongStart(s: string)
  {
    |s| >= 2 && s[0] == '-' && s[1] == '-'
  }

  /** An option-looking argument with a second character: the scanner
      returns it as a long option or a short-option bundle. A lone
      option-start character is option-looking but is no option token. */
  predicate IsOptionToken(s: string, os: set<char>)
  {
    OptionLooking(s, os) && |s| >= 2
  }

  /** No argument in `s[lo..hi]` is an option token. */
  predicate NoTokens(s: seq<string>, lo: int, hi: int, os: set<char>)
    requires 0 <= lo && hi <= |s|
  {
    forall k :: lo <= k < hi ==> !IsOptionToken(s[k], os)
  }

  /** `s[j]` moved to slot `a`, `s[a..j]` shifted one slot right. */
  function Rotated(s: seq<string>, a: nat, j: nat): (r: seq<string>)
    requires a <= j < |s|
    ensures |r| == |s| && r[a] == s[j]
    ensures forall k :: a < k <= j ==> r[k] == s[k - 1]
    ensures forall k :: 0 <= k < |r| && (k < a || j < k) ==> r[k] == s[k]
  {
    seq(|s|, k requires 0 <= k < |s| => if k < a || j < k then s[k] else if k == a then s[j] else s[k - 1])
  }

  /** Rotation is a permutation: no string is created, lost or altered. */
  lemma RotatedPermutes(s: seq<string>, a: nat, j: nat)
    requires a <= j < |s|
    ensures multiset(Rotated(s, a, j)) == multiset(s)
  {
    var r := Rotated(s, a, j);
    assert r == s[..a] + [s[j]] + s[a..j] + s[j + 1..];
    assert s == s[..a] + s[a..j] + [s[j]] + s[j + 1..];
  }

  /** The token an option-looking argument of two or more characters gives. */
  function Classify(arg: string): (t: Token)
    requires |arg| >= 2
    ensures t.kind != OptArg && (t.kind == OptLong <==> IsLongStart(arg))
    ensures arg == (if t.kind == OptLong then arg[..2] else arg[..1]) + t.text
  {
    if IsLongStart(arg) then Token(OptLong, arg[2..]) else Token(OptShort, arg[1..])
  }

  /** The scan result once an option token stands under the cursor: a long
      option leaves `chari` at 0, a bundle starts at character 1. */
  function Landed(d: Cursor, os: set<char>): (r: Scanned)
    requires 0 <= d.argi < |d.args| && IsOptionToken(d.args[d.argi], os)
    ensures r.token.Some? && TokenFits(r.cursor, r.token.value)
    ensures r.cursor.args == d.args && r.cursor.argi == d.argi && r.cursor.normalOnly == d.normalOnly
  {
    var t := Classify(d.args[d.argi]);
    Scanned(d.(chari := if t.kind == OptLong then 0 else 1), Some(t))
  }

  /** The search for a later option argument, corrected so that it ends: it
      tries `args[i..]` in order, rotates each option-looking argument into
      slot `a`, and stops when the argument that landed there is an option
      token. When a lone option-start character lands, the search goes on
      after the slot it came from. The boolean says whether an option token
      landed. */
  function SearchFrom(args: seq<string>, a: nat, i: nat, os: set<char>): (r: (seq<string>, bool))
    requires a < i <= |args|
    decreases |args| - i
    ensures |r.0| == |args|
  {
    if i == |args| then (args, false)
    else if OptionLooking(args[i], os) then
      var moved := Rotated(args, a, i);
      if IsOptionToken(moved[a], os) then (moved, true)
      else SearchFrom(moved, a, i + 1, os)
    else SearchFrom(args, a, i + 1, os)
  }

  /** The search keeps every slot before `a`; a hit leaves an option token
      in slot `a`; a miss leaves no option token from `a` on, provided none
      was in `args[a..i]` to begin with. */
  lemma {:induction false} SearchFromMeaning(args: seq<string>, a: nat, i: nat, os: set<char>)
    requires a < i <= |args|
    decreases |args| - i
    ensures var r := SearchFrom(args, a, i, os);
            (forall k :: 0 <= k < a ==> r.0[k] == args[k]) &&
            (r.1 ==> IsOptionToken(r.0[a], os)) &&
            (!r.1 && NoTokens(args, a, i, os) ==> NoTokens(r.0, a, |args|, os))
  {
    if i < |args| {
      if OptionLooking(args[i], os) {
        var moved := Rotated(args, a, i);
        if !IsOptionToken(moved[a], os) {
          SearchFromMeaning(moved, a, i + 1, os);
          assert SearchFrom(args, a, i, os) == SearchFrom(moved, a, i + 1, os);
          assert NoTokens(args, a, i, os) ==> NoTokens(moved, a, i + 1, os);
        }
      } else {
        SearchFromMeaning(args, a, i + 1, os);
        assert SearchFrom(args, a, i, os) == SearchFrom(args, a, i + 1, os);
      }
    }
  }

  /** One call of the scanner: the next character of a bundle, or else the
      next argument. */
  function Scan(c: Cursor, os: set<char>, returnsAll: bool): (r: Scanned)
    requires WellFormed(c)
    ensures WellFormed(r.cursor)
    ensures |r.cursor.args| == |c.args|
    ensures forall k :: 0 <= k <= c.argi && k < |c.args| ==> r.cursor.args[k] == c.args[k]
    ensures r.cursor.argi == c.argi || r.cursor.argi == c.argi + 1
    ensures r.token.Some? ==> 1 <= r.cursor.argi && TokenFits(r.cursor, r.token.value)
    ensures r.token.None? ==> r.cursor.argi == c.argi + 1 >= |c.args|
    ensures c.normalOnly ==> r.cursor.normalOnly
    ensures r.token.Some? && r.token.value.kind == OptLong ==> !c.normalOnly
    ensures r.token.Some? && r.token.value.kind == OptShort && c.chari == 0 ==> !c.normalOnly
  {
    if c.chari > 0 && c.chari + 1 < |c.args[c.argi]| then
      Scanned(c.(chari := c.chari + 1), Some(Token(OptShort, c.args[c.argi][c.chari + 1..])))
    else
      ScanArgument(c.(argi := c.argi + 1, chari := 0), os, returnsAll)
  }

  /** The scan of the argument at `d.argi`, once any bundle before it is
      done: exhaustion past the end; a positional once `normalOnly` is set;
      an option token classified; otherwise, with no catch-all entry, the
      search for a later option, which latches `normalOnly` when it finds
      none. */
  function ScanArgument(d: Cursor, os: set<char>, returnsAll: bool): (r: Scanned)
    requires 1 <= d.argi && d.chari == 0
    ensures WellFormed(r.cursor) && |r.cursor.args| == |d.args| && r.cursor.argi == d.argi
    ensures forall k :: 0 <= k < d.argi && k < |d.args| ==> r.cursor.args[k] == d.args[k]
    ensures r.token.Some? ==> TokenFits(r.cursor, r.token.value)
    ensures r.token.None? <==> d.argi >= |d.args|
    ensures r.token.None? ==> r.cursor == d
    ensures d.normalOnly ==> r.cursor.normalOnly
    ensures r.token.Some? && r.token.value.kind != OptArg ==> !d.normalOnly
  {
    var a := d.argi;
    if a >= |d.args| then Scanned(d, None)
    else if d.normalOnly then Scanned(d, Some(Token(OptArg, d.args[a])))
    else if IsOptionToken(d.args[a], os) then Landed(d, os)
    else if returnsAll then Scanned(d, Some(Token(OptArg, d.args[a])))
    else
      var search := SearchFrom(d.args, a, a + 1, os);
      SearchFromMeaning(d.args, a, a + 1, os);
      if search.1 then Landed(d.(args := search.0), os)
      else Scanned(d.(args := search.0, normalOnly := true), Some(Token(OptArg, search.0[a])))
  }

  /** The search only rotates: the vector it leaves is a permutation. */
  lemma {:induction false} SearchPermutes(args: seq<string>, a: nat, i: nat, os: set<char>)
    requires a < i <= |args|
    decreases |args| - i
    ensures multiset(SearchFrom(args, a, i, os).0) == multiset(args)
  {
    if i < |args| {
      if OptionLooking(args[i], os) {
        var moved := Rotated(args, a, i);
        RotatedPermutes(args, a, i);
        if !IsOptionToken(moved[a], os) {
          SearchPermutes(moved, a, i + 1, os);
          assert SearchFrom(args, a, i, os).0 == SearchFrom(moved, a, i + 1, os).0;
        }
      } else {
        SearchPermutes(args, a, i + 1, os);
        assert SearchFrom(args, a, i, os).0 == SearchFrom(args, a, i + 1, os).0;
      }
    }
  }

  /** A scan leaves a permutation of the vector it was given. */
  lemma ScanPermutes(c: Cursor, os: set<char>, returnsAll: bool)
    requires WellFormed(c)
    ensures multiset(Scan(c, os, returnsAll).cursor.args) == multiset(c.args)
  {
    var a := c.argi + 1;
    if !(c.chari > 0 && c.chari + 1 < |c.args[c.argi]|) && a < |c.args| {
      SearchPermutes(c.args, a, a + 1, os);
    }
  }

  /** Inside a bundle each scan moves one character on and returns the rest
      of the bundle as a short option, without moving to another argument;
      at the end of the bundle `chari` is reset and the next argument is
      taken. */
  lemma ScanBundle(c: Cursor, os: set<char>, returnsAll: bool)
    requires WellFormed(c) && c.chari > 0
    ensures var s := c.args[c.argi];
            var r := Scan(c, os, returnsAll);
            if c.chari + 1 < |s| then
              r == Scanned(c.(chari := c.chari + 1), Some(Token(OptShort, s[c.chari + 1..])))
            else
              r.cursor.argi == c.argi + 1 && (r.token.None? || r.token.value.kind != OptShort || r.cursor.chari == 1)
  {
  }

  /** The scanner reports exhaustion exactly when no bundle character is
      left and the incremented `argi` reaches the end of the vector. */
  lemma ScanExhausted(c: Cursor, os: set<char>, returnsAll: bool)
    requires WellFormed(c)
    ensures var r := Scan(c, os, returnsAll);
            r.token.None? <==>
              !(c.chari > 0 && c.chari + 1 < |c.args[c.argi]|) && c.argi + 1 >= |c.args|
    ensures Scan(c, os, returnsAll).token.None? ==> Scan(c, os, returnsAll).cursor.args == c.args
  {
  }

  /** The scanner never looks at the program name: changing `args[0]`
      changes nothing but `args[0]` of the result. */
  lemma {:induction false} ScanIgnoresProgramName(c: Cursor, os: set<char>, returnsAll: bool, x: string)
    requires WellFormed(c) && |c.args| > 0
    ensures var r := Scan(c, os, returnsAll);
            Scan(c.(args := c.args[0 := x]), os, returnsAll)
              == Scanned(r.cursor.(args := r.cursor.args[0 := x]), r.token)
  {
    var c' := c.(args := c.args[0 := x]);
    if c.chari > 0 {
      assert c'.args[c.argi] == c.args[c.argi];
    }
    if !(c.chari > 0 && c.chari + 1 < |c.args[c.argi]|) {
      var d := c.(argi := c.argi + 1, chari := 0);
      ScanArgumentIgnoresProgramName(d, os, returnsAll, x);
      assert Scan(c', os, returnsAll) == ScanArgument(d.(args := d.args[0 := x]), os, returnsAll);
    }
  }

  lemma ScanArgumentIgnoresProgramName(d: Cursor, os: set<char>, returnsAll: bool, x: string)
    requires 1 <= d.argi && d.chari == 0 && |d.args| > 0
    ensures var r := ScanArgument(d, os, returnsAll);
            ScanArgument(d.(args := d.args[0 := x]), os, returnsAll)
              == Scanned(r.cursor.(args := r.cursor.args[0 := x]), r.token)
  {
    var a := d.argi;
    if a < |d.args| && !d.normalOnly && !IsOptionToken(d.args[a], os) && !returnsAll {
      SearchIgnoresProgramName(d.args, a, a + 1, os, x);
      var found := SearchFrom(d.args, a, a + 1, os);
      assert found.0[0 := x][a] == found.0[a];
    }
  }

  lemma {:induction false} SearchIgnoresProgramName(args: seq<string>, a: nat, i: nat, os: set<char>, x: string)
    requires 1 <= a < i <= |args|
    decreases |args| - i
    ensures var r := SearchFrom(args, a, i, os);
            SearchFrom(args[0 := x], a, i, os) == (r.0[0 := x], r.1)
  {
    if i < |args| {
      var s' := args[0 := x];
      if OptionLooking(args[i], os) {
        var m := Rotated(args, a, i);
        var m' := Rotated(s', a, i);
        assert |m'| == |m[0 := x]|;
        forall k | 0 <= k < |m'| ensures m'[k] == m[0 := x][k] {
        }
        assert m' == m[0 := x];
        if !IsOptionToken(m[a], os) {
          SearchIgnoresProgramName(m, a, i + 1, os, x);
        }
      } else {
        SearchIgnoresProgramName(args, a, i + 1, os, x);
      }
    }
  }

  /** With no catch-all, a positional argument returned while `normalOnly`
      was false latches `normalOnly`, and every later option-looking
      argument is a lone option-start character: no option token is left
      behind the cursor. Lone characters can remain only on inputs where the
      source's own search never ends; `ScanLatchesWhereSourceEnds` excludes
      them. */
  lemma ScanLatchesNormalOnly(c: Cursor, os: set<char>)
    requires WellFormed(c) && !c.normalOnly
    requires Scan(c, os, false).token.Some? && Scan(c, os, false).token.value.kind == OptArg
    ensures var d := Scan(c, os, false).cursor;
            d.normalOnly &&
            forall k :: d.argi < k < |d.args| && OptionLooking(d.args[k], os) ==> |d.args[k]| == 1
  {
    var a := c.argi + 1;
    var d := Scan(c, os, false).cursor;
    assert NoTokens(c.args, a, a + 1, os);
    SearchFromMeaning(c.args, a, a + 1, os);
    assert NoTokens(d.args, a, |d.args|, os);
  }

  /** Once `normalOnly` is set, every later argument is returned whole as a
      positional, even one that starts with `-`, and nothing is reordered. */
  lemma ScanAfterEndOfOptions(c: Cursor, os: set<char>, returnsAll: bool)
    requires WellFormed(c) && c.normalOnly && c.chari == 0
    ensures Scan(c, os, returnsAll) ==
      Scanned(c.(argi := c.argi + 1),
              if c.argi + 1 < |c.args| then Some(Token(OptArg, c.args[c.argi + 1])) else None)
  {
  }

  /** With a catch-all entry the scanner never reorders the vector and never
      latches `normalOnly`. */
  lemma ScanWithCatchAll(c: Cursor, os: set<char>)
    requires WellFormed(c)
    ensures Scan(c, os, true).cursor.args == c.args
    ensures Scan(c, os, true).cursor.normalOnly == c.normalOnly
  {
  }

  lemma {:induction false} SearchFirstHit(args: seq<string>, a: nat, i: nat, j: nat, os: set<char>)
    requires a < i <= j < |args|
    requires forall k :: i <= k < j ==> !OptionLooking(args[k], os)
    requires IsOptionToken(args[j], os)
    decreases j - i
    ensures SearchFrom(args, a, i, os) == (Rotated(args, a, j), true)
  {
    if i < j {
      SearchFirstHit(args, a, i + 1, j, os);
    }
  }

  /** Rotation: when the argument under the cursor is not an option and the
      first option-looking argument after it, `args[j]`, is an option token,
      that argument moves to the cursor, the ones between shift one slot
      right in their order, all others stay, and it is returned. */
  lemma ScanRotates(c: Cursor, os: set<char>, j: nat)
    requires WellFormed(c) && !c.normalOnly
    requires !(c.chari > 0 && c.chari + 1 < |c.args[c.argi]|)
    requires c.argi + 1 < j < |c.args|
    requires !IsOptionToken(c.args[c.argi + 1], os)
    requires forall k :: c.argi + 1 < k < j ==> !OptionLooking(c.args[k], os)
    requires IsOptionToken(c.args[j], os)
    ensures var r := Scan(c, os, false);
            r.cursor.args == Rotated(c.args, c.argi + 1, j) &&
            r.cursor.argi == c.argi + 1 && r.token == Some(Classify(c.args[j]))
  {
    SearchFirstHit(c.args, c.argi + 1, c.argi + 2, j, os);
  }

  // ------------------------------------------------------------------
  // The search as written in the source, which restarts at `argi + 1`.

  /** The first option-looking argument at or after `i`, or `|args|`. */
  function FirstLookingFrom(args: seq<string>, i: nat, os: set<char>): (j: nat)
    requires i <= |args|
    decreases |args| - i
    ensures i <= j <= |args| && (j < |args| ==> OptionLooking(args[j], os))
    ensures forall k :: i <= k < j ==> !OptionLooking(args[k], os)
  {
    if i == |args| || OptionLooking(args[i], os) then i else FirstLookingFrom(args, i + 1, os)
  }

  /** One pass of the source's search loop, which always starts at `a + 1`:
      the first option-looking argument is rotated into slot `a`. When the
      argument that lands there is not an option token, the source jumps
      back and runs this same pass again on the result. */
  function PassAsWritten(args: seq<string>, a: nat, os: set<char>): (r: (seq<string>, Option<nat>))
    requires a < |args|
    ensures r.1.None? ==> r.0 == args && forall k :: a < k < |args| ==> !OptionLooking(args[k], os)
    ensures r.1.Some? ==> a < r.1.value < |args| && r.0 == Rotated(args, a, r.1.value)
    ensures r.1.Some? ==> OptionLooking(r.0[a], os)
  {
    var j := FirstLookingFrom(args, a + 1, os);
    if j == |args| then (args, None) else (Rotated(args, a, j), Some(j))
  }

  /** The source never leaves its search when a lone option-start character
      lies under the cursor and the same character follows it: the pass
      swaps the two equal strings, lands a lone character that is no option
      token, and jumps back to the identical state. `prog - -` does this. */
  lemma AsWrittenLivelock(args: seq<string>, a: nat, os: set<char>)
    requires a + 1 < |args|
    requires OptionLooking(args[a], os) && |args[a]| == 1 && args[a + 1] == args[a]
    ensures PassAsWritten(args, a, os) == (args, Some(a + 1))
    ensures !IsOptionToken(PassAsWritten(args, a, os).0[a], os)
  {
    var r := Rotated(args, a, a + 1);
    assert r == args;
  }

  /** The source's search run for at most `passes` passes: each pass
      rotates the first option-looking argument after `a` into slot `a`;
      the search ends when a pass finds none, or when an option token
      lands; when a lone option-start character lands it jumps back and
      passes again. `None` means it has not ended within `passes` passes. */
  function SearchAsWritten(args: seq<string>, a: nat, os: set<char>, passes: nat): (r: Option<(seq<string>, bool)>)
    requires a < |args|
    decreases passes
    ensures r.Some? ==> |r.value.0| == |args|
  {
    if passes == 0 then None
    else
      var p := PassAsWritten(args, a, os);
      if p.1.None? then Some((args, false))
      else if IsOptionToken(p.0[a], os) then Some((p.0, true))
      else SearchAsWritten(p.0, a, os, passes - 1)
  }

  /** The livelock in general: once lone option-start characters sit in both
      slot `a` and slot `a + 1`, equal or not (`prog - /` with option start
      `-` or `/`), every pass swaps them and the source's search never ends. */
  lemma {:induction false} AsWrittenStuck(args: seq<string>, a: nat, os: set<char>, passes: nat)
    requires a + 1 < |args|
    requires OptionLooking(args[a], os) && |args[a]| == 1
    requires OptionLooking(args[a + 1], os) && |args[a + 1]| == 1
    decreases passes
    ensures SearchAsWritten(args, a, os, passes).None?
  {
    if passes > 0 {
      var p := PassAsWritten(args, a, os);
      assert p.1 == Some(a + 1);
      AsWrittenStuck(p.0, a, os, passes - 1);
    }
  }

  /** The arguments a rotation shifts right were not option-looking, so
      after it nothing option-looking lies between the cursor and the slot
      the moved argument came from. */
  lemma ShiftedArgumentsClear(args: seq<string>, a: nat, j: nat, os: set<char>)
    requires a < j < |args| && !OptionLooking(args[a], os)
    requires forall k :: a < k < j ==> !OptionLooking(args[k], os)
    ensures forall k :: a < k <= j ==> !OptionLooking(Rotated(args, a, j)[k], os)
  {
    var m := Rotated(args, a, j);
    forall k | a < k <= j
      ensures !OptionLooking(m[k], os)
    {
      assert m[k] == args[k - 1];
    }
  }

  /** After the first lone character lands, the corrected search from the
      new vector gives what it gave from the old one, provided the argument
      that was under the cursor is not option-looking. */
  lemma LoneLandingAgrees(args: seq<string>, a: nat, j: nat, os: set<char>)
    requires a < j < |args| && !OptionLooking(args[a], os)
    requires forall k :: a < k < j ==> !OptionLooking(args[k], os)
    requires OptionLooking(args[j], os) && !IsOptionToken(args[j], os)
    ensures SearchFrom(args, a, a + 1, os) == SearchFrom(Rotated(args, a, j), a, a + 1, os)
  {
    var m := Rotated(args, a, j);
    calc {
      SearchFrom(args, a, a + 1, os);
    == { RestartAgrees(args, a, j, os); }
      SearchFrom(args, a, j, os);
    == // `args[j]` is option-looking and lands a lone character
      SearchFrom(m, a, j + 1, os);
    == { ShiftedArgumentsClear(args, a, j, os); RestartAgrees(m, a, j + 1, os); }
      SearchFrom(m, a, a + 1, os);
    }
  }

  /** One pass of `SearchAsWritten`, by the first option-looking argument
      after the cursor. */
  lemma SearchAsWrittenStep(args: seq<string>, a: nat, os: set<char>, passes: nat)
    requires a < |args| && passes > 0
    ensures var j := FirstLookingFrom(args, a + 1, os);
            var r := SearchAsWritten(args, a, os, passes);
            (j == |args| ==> r == Some((args, false))) &&
            (j < |args| && IsOptionToken(args[j], os) ==> r == Some((Rotated(args, a, j), true))) &&
            (j < |args| && !IsOptionToken(args[j], os) ==>
               r == SearchAsWritten(Rotated(args, a, j), a, os, passes - 1))
  {
  }

  /** Whenever the source's search ends, it ends where the corrected search
      does: the same vector and the same answer. After a first lone
      character lands, the source ends only if its next pass finds an option
      token or nothing; the corrected search, going on after the slot the
      lone character came from, reaches that same pass. */
  lemma {:induction false} AsWrittenAgrees(args: seq<string>, a: nat, os: set<char>, passes: nat)
    requires a < |args| && !IsOptionToken(args[a], os)
    decreases passes
    ensures SearchAsWritten(args, a, os, passes).Some? ==>
              SearchAsWritten(args, a, os, passes).value == SearchFrom(args, a, a + 1, os)
  {
    if passes > 0 {
      var j := FirstLookingFrom(args, a + 1, os);
      SearchAsWrittenStep(args, a, os, passes);
      RestartAgrees(args, a, j, os);
      if j == |args| {
        assert SearchFrom(args, a, j, os) == (args, false);
      } else {
        var m := Rotated(args, a, j);
        if IsOptionToken(args[j], os) {
          assert SearchFrom(args, a, j, os) == (m, true);
        } else if OptionLooking(args[a], os) {
          AsWrittenStuck(m, a, os, passes - 1);
        } else {
          LoneLandingAgrees(args, a, j, os);
          AsWrittenAgrees(m, a, os, passes - 1);
        }
      }
    }
  }

  /** When the source's search ends without an option token, nothing
      option-looking is left after slot `a`. */
  lemma {:induction false} AsWrittenMissClears(args: seq<string>, a: nat, os: set<char>, passes: nat)
    requires a < |args|
    decreases passes
    ensures var r := SearchAsWritten(args, a, os, passes);
            r.Some? && !r.value.1 ==> forall k :: a < k < |r.value.0| ==> !OptionLooking(r.value.0[k], os)
  {
    if passes > 0 {
      var j := FirstLookingFrom(args, a + 1, os);
      if j < |args| {
        var m := Rotated(args, a, j);
        assert PassAsWritten(args, a, os) == (m, Some(j));
        if !IsOptionToken(m[a], os) {
          assert SearchAsWritten(args, a, os, passes) == SearchAsWritten(m, a, os, passes - 1);
          AsWrittenMissClears(m, a, os, passes - 1);
        }
      }
    }
  }

  /** With no catch-all, a positional returned while `normalOnly` was false
      latches `normalOnly`, and, on every input where the source's search
      ends, no argument after the cursor is option-looking at all. */
  lemma ScanLatchesWhereSourceEnds(c: Cursor, os: set<char>, passes: nat)
    requires WellFormed(c) && !c.normalOnly && c.argi + 1 < |c.args|
    requires Scan(c, os, false).token.Some? && Scan(c, os, false).token.value.kind == OptArg
    requires SearchAsWritten(c.args, c.argi + 1, os, passes).Some?
    ensures var d := Scan(c, os, false).cursor;
            d.normalOnly && forall k :: d.argi < k < |d.args| ==> !OptionLooking(d.args[k], os)
  {
    var a := c.argi + 1;
    var e := c.(argi := a, chari := 0);
    assert Scan(c, os, false) == ScanArgument(e, os, false);
    assert !IsOptionToken(c.args[a], os);
    var search := SearchFrom(c.args, a, a + 1, os);
    assert Scan(c, os, false).cursor == e.(args := search.0, normalOnly := true) && !search.1;
    AsWrittenAgrees(c.args, a, os, passes);
    AsWrittenMissClears(c.args, a, os, passes);
  }

  /** The counterexample: `prog - -` with option start `-` and no catch-all
      reaches the state of `AsWrittenLivelock` on its first scan, while the
      corrected search returns the first `-` as a positional. */
  lemma LoneDashesScanned()
    ensures PassAsWritten(["prog", "-", "-"], 1, {'-'}) == (["prog", "-", "-"], Some(2))
    ensures Scan(Cursor(["prog", "-", "-"], 0, 0, false), {'-'}, false)
            == Scanned(Cursor(["prog", "-", "-"], 1, 0, true), Some(Token(OptArg, "-")))
  {
    var s := ["prog", "-", "-"];
    AsWrittenLivelock(s, 1, {'-'});
    assert Rotated(s, 1, 2) == s;
    assert SearchFrom(s, 1, 2, {'-'}) == SearchFrom(s, 1, 3, {'-'});
  }

  /** Vectors on which the source's search never ends, however many passes
      it is given: `prog - -` with option start `-`; `prog - /` with option
      start `-` or `/`, where each pass swaps two different strings; and
      `prog x - y -`, where two passes bring both `-` to the cursor. */
  lemma LoneCharactersNeverEnd(passes: nat)
    ensures SearchAsWritten(["prog", "-", "-"], 1, {'-'}, passes).None?
    ensures SearchAsWritten(["prog", "-", "/"], 1, {'-', '/'}, passes).None?
    ensures SearchAsWritten(["prog", "x", "-", "y", "-"], 1, {'-'}, passes).None?
  {
    AsWrittenStuck(["prog", "-", "-"], 1, {'-'}, passes);
    AsWrittenStuck(["prog", "-", "/"], 1, {'-', '/'}, passes);
    var v0, v1, v2 := ["prog", "x", "-", "y", "-"], ["prog", "-", "x", "y", "-"], ["prog", "-", "-", "x", "y"];
    assert FirstLookingFrom(v0, 2, {'-'}) == 2;
    assert Rotated(v0, 1, 2) == v1;
    assert FirstLookingFrom(v1, 4, {'-'}) == 4;
    assert FirstLookingFrom(v1, 2, {'-'}) == 4;
    assert Rotated(v1, 1, 4) == v2;
    if passes >= 2 {
      AsWrittenStuck(v2, 1, {'-'}, passes - 2);
      assert SearchAsWritten(v1, 1, {'-'}, passes - 1) == SearchAsWritten(v2, 1, {'-'}, passes - 2);
    }
  }

  /** Starting the corrected search again at `a + 1` or going on at `i`
      gives the same result when the arguments skipped hold nothing
      option-looking. The source restarts over `args[a + 1..i]` after a lone
      character lands; those slots hold what was at `args[a..i - 1]`, which
      is why `AsWrittenAgrees` can follow the source pass by pass. */
  lemma {:induction false} RestartAgrees(args: seq<string>, a: nat, i: nat, os: set<char>)
    requires a < i <= |args|
    requires forall k :: a < k < i ==> !OptionLooking(args[k], os)
    decreases i - a
    ensures SearchFrom(args, a, a + 1, os) == SearchFrom(args, a, i, os)
  {
    if i > a + 1 {
      RestartAgrees(args, a, i - 1, os);
    }
  }
}
