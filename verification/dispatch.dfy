/** The dispatcher: one logical unit of the command line per call. It skips
    a bare `--`, looks the token up, works out how a value is connected,
    calls the option's callback and moves the cursor by what the callback
    accepted. `Drain` repeats it until it reports false, as `process` does. */
module Dispatch {
  import opened Types
  import opened Lookup
  import opened Scanner

  /** The parser's fixed configuration: the table, its cached catch-all and
      the option-start characters. */
  datatype Env = Env(table: seq<OptionEntry>, returnsAll: Option<nat>, optionStart: set<char>)

  ghost predicate EnvValid(env: Env)
  {
    TableValid(env.table) && env.returnsAll == CheckReturnAll(env.table)
  }

  /** How the value of an option is found, and whether a `usedChars` slot is
      passed to the callback. */
  datatype Link = Link(connect: Connection, value: Option<string>, mayUseChars: bool)

  /** What one call of the dispatcher reports: false at exhaustion, false
      for a token no entry takes, true with the entry otherwise. */
  datatype Outcome = Exhausted | Unmatched(asEntered: string) | Matched(option: nat, asEntered: string)

  /** The state after one call: cursor, the storage `isFlag` writes, the
      token scanned, and the outcome. */
  datatype StepResult = StepResult(cursor: Cursor, flags: map<nat, bool>, token: Option<Token>, outcome: Outcome)

  /** The position of the first `ch` in `s`. */
  function FirstIndex(s: string, ch: char): (i: nat)
    requires ch in s
    ensures i < |s| && s[i] == ch && ch !in s[..i]
  {
    if s[0] == ch then 0
    else
      var j := FirstIndex(s[1..], ch);
      assert s[..j + 1] == [s[0]] + s[1..][..j];
      j + 1
  }

  /** The scanner, run again after a bare `--`, which sets `normalOnly` and
      is never handed to the caller. */
  function ScanPastEnd(c: Cursor, env: Env): (r: Scanned)
    requires WellFormed(c)
    ensures WellFormed(r.cursor) && |r.cursor.args| == |c.args|
    ensures r.token.Some? ==> 1 <= r.cursor.argi && TokenFits(r.cursor, r.token.value)
    ensures r.token != Some(Token(OptLong, ""))
    ensures c.argi <= r.cursor.argi
    ensures forall k :: 0 <= k <= c.argi && k < |c.args| ==> r.cursor.args[k] == c.args[k]
    ensures r.token.None? ==> r.cursor.argi == if c.argi < |c.args| then |c.args| else c.argi + 1
    ensures r.cursor.argi == c.argi ==> c.chari > 0 && r.cursor.chari == c.chari + 1 && r.cursor.args == c.args
  {
    var s := Scan(c, env.optionStart, env.returnsAll.Some?);
    if s.token == Some(Token(OptLong, "")) then
      Scan(s.cursor.(normalOnly := true), env.optionStart, env.returnsAll.Some?)
    else s
  }

  /** How the value is connected: after `=` or adjacent inside a bundle,
      after `=` in a long option, or else the next argument (absent at the
      end of the vector). A positional is its own value. */
  function Connect(d: Cursor, tok: Token): Link
    requires TokenFits(d, tok)
  {
    var s := d.args[d.argi];
    if tok.kind == OptArg then Link(NextArg, Some(tok.text), false)
    else if tok.kind == OptShort && d.chari + 1 < |s| then
      if s[d.chari + 1] == '=' then Link(WithEquals, Some(s[d.chari + 2..]), true)
      else Link(Adjacent, Some(s[d.chari + 1..]), true)
    else if tok.kind == OptLong && '=' in tok.text then
      Link(WithEquals, Some(tok.text[FirstIndex(tok.text, '=') + 1..]), false)
    else if d.argi + 1 < |d.args| then Link(NextArg, Some(d.args[d.argi + 1]), false)
    else Link(NextArg, None, false)
  }

  /** What `Connect` decides: a `usedChars` slot exactly for a short option
      with characters after it; `nextArg` exactly for a positional, a short
      option at the end of its bundle or a long option without `=`, with the
      following argument (absent at the end) as the value; otherwise the
      value is exactly the rest of the argument after the option character,
      or after the first `=`, which the option text before it does not
      contain. */
  lemma ConnectCases(d: Cursor, tok: Token)
    requires TokenFits(d, tok)
    ensures var l := Connect(d, tok);
            var s := d.args[d.argi];
            (l.mayUseChars <==> tok.kind == OptShort && d.chari + 1 < |s|) &&
            (tok.kind == OptArg ==> l == Link(NextArg, Some(tok.text), false)) &&
            (l.connect == NextArg <==>
               tok.kind == OptArg
               || (tok.kind == OptShort && d.chari + 1 >= |s|)
               || (tok.kind == OptLong && '=' !in tok.text)) &&
            (l.connect == NextArg && tok.kind != OptArg ==>
               l.value == if d.argi + 1 < |d.args| then Some(d.args[d.argi + 1]) else None)
    ensures var l := Connect(d, tok);
            var s := d.args[d.argi];
            l.connect == Adjacent ==>
              tok.kind == OptShort && l.value.Some? && l.value.value != [] && l.value.value[0] != '=' &&
              s == s[..d.chari + 1] + l.value.value
    ensures var l := Connect(d, tok);
            var s := d.args[d.argi];
            l.connect == WithEquals && tok.kind == OptShort ==>
              l.value.Some? && s == s[..d.chari + 1] + "=" + l.value.value
    ensures var l := Connect(d, tok);
            l.connect == WithEquals && tok.kind == OptLong ==>
              l.value.Some? && |l.value.value| < |tok.text| &&
              var v := l.value.value;
              var name := tok.text[..|tok.text| - |v| - 1];
              tok.text == name + "=" + v && '=' !in name
  {
    var s := d.args[d.argi];
    if tok.kind == OptShort && d.chari + 1 < |s| {
      if s[d.chari + 1] == '=' {
        assert s == s[..d.chari + 1] + "=" + s[d.chari + 2..];
      } else {
        assert s == s[..d.chari + 1] + s[d.chari + 1..];
      }
    } else if tok.kind == OptLong && '=' in tok.text {
      var i := FirstIndex(tok.text, '=');
      assert tok.text == tok.text[..i] + "=" + tok.text[i + 1..];
    }
  }

  /** The room `Connect` leaves: claimed characters of a value inside a
      bundle stay inside the argument, and a value taken from the next
      argument exists only when there is one. */
  lemma ConnectBounds(d: Cursor, tok: Token)
    requires TokenFits(d, tok)
    ensures var l := Connect(d, tok);
            l.mayUseChars ==>
              tok.kind == OptShort && l.value.Some? && 1 <= d.chari &&
              d.chari + |l.value.value| + (if l.connect == WithEquals then 1 else 0) < |d.args[d.argi]|
    ensures var l := Connect(d, tok);
            l.connect == NextArg && tok.kind != OptArg && l.value.Some? ==> d.argi + 1 < |d.args|
  {
  }

  /** The text a callback sees as the option the user typed: the two-character
      `shortOptionBuf` for a short option, the whole argument otherwise. */
  function AsEntered(d: Cursor, tok: Token): (r: string)
    requires TokenFits(d, tok)
    ensures tok.kind == OptShort ==> |r| == 2 && r[0] == d.args[d.argi][0] && r[1] == tok.text[0]
    ensures tok.kind != OptShort ==> r == d.args[d.argi]
  {
    if tok.kind == OptShort then [d.args[d.argi][0], tok.text[0]] else d.args[d.argi]
  }

  /** The table entry a token selects: by short name, by long name, or the
      catch-all for a positional. */
  function Resolve(tok: Token, env: Env): (r: Option<nat>)
    requires EnvValid(env)
    requires tok.kind == OptShort ==> tok.text != []
    ensures r.Some? ==> r.value < |env.table|
  {
    match tok.kind
    case OptShort => FindShortOption(env.table, tok.text[0])
    case OptLong => FindLongOption(env.table, tok.text)
    case OptArg => env.returnsAll
  }

  /** What the callback of entry `k` is handed for this token. */
  function CallFor(d: Cursor, tok: Token, k: nat): (call: Call)
    requires TokenFits(d, tok)
  {
    var l := Connect(d, tok);
    Call(k, AsEntered(d, tok), l.connect, l.value, l.mayUseChars)
  }

  /** The cursor after the callback answered. */
  function Advance(d: Cursor, kind: TokenKind, call: Call, reply: Reply): (r: Cursor)
    requires WellFormed(d) && d.argi < |d.args| && Honest(call, reply)
    requires call.mayUseChars ==>
               kind == OptShort && call.value.Some? && 1 <= d.chari &&
               d.chari + Claimable(call) < |d.args[d.argi]|
    requires kind != OptArg && call.connect == NextArg && call.value.Some? ==> d.argi + 1 < |d.args|
    requires kind == OptArg ==> d.chari == 0
    ensures WellFormed(r) && r.args == d.args && r.normalOnly == d.normalOnly
    ensures d.argi <= r.argi < |d.args|
    ensures r.argi == d.argi ==> r.chari == 0 || r.chari >= d.chari
    ensures kind == OptArg ==> r.argi == d.argi && r.chari == 0
  {
    var used := UsedChars(call, reply);
    if !reply.accepted then d
    else if used > 0 then d.(chari := d.chari + used)
    else if kind != OptArg && call.connect == NextArg then d.(chari := 0, argi := d.argi + 1)
    else d.(chari := 0)
  }

  /** Everything after the scan: lookup, callback and cursor update. */
  function Dispatch(d: Cursor, tok: Token, env: Env, flags: map<nat, bool>, respond: Responder): (r: StepResult)
    requires WellFormed(d) && 1 <= d.argi && TokenFits(d, tok) && EnvValid(env) && WellBehaved(respond)
    ensures WellFormed(r.cursor) && r.cursor.args == d.args && r.token == Some(tok)
    ensures !r.outcome.Exhausted?
    ensures r.outcome.Matched? ==> d.argi <= r.cursor.argi < |d.args|
    ensures r.outcome.Unmatched? ==> r.cursor == d
    ensures r.cursor.argi == d.argi ==> r.cursor.chari == 0 || r.cursor.chari >= d.chari
    ensures tok.kind == OptArg ==> r.cursor.argi == d.argi && r.cursor.chari == 0
    ensures r.cursor.normalOnly == d.normalOnly
    ensures r.outcome.Unmatched? <==> Resolve(tok, env).None?
    ensures r.outcome.Matched? ==> Resolve(tok, env) == Some(r.outcome.option)
    ensures r.outcome.Exhausted? || r.outcome.asEntered == AsEntered(d, tok)
    ensures Resolve(tok, env).Some? && env.table[Resolve(tok, env).value].callback.None? ==>
              r.cursor == d && r.flags == flags
  {
    var found := Resolve(tok, env);
    if found.None? then StepResult(d, flags, Some(tok), Unmatched(AsEntered(d, tok)))
    else
      var k := found.value;
      var e := env.table[k];
      if e.callback.None? then StepResult(d, flags, Some(tok), Matched(k, AsEntered(d, tok)))
      else
        ConnectBounds(d, tok);
        var call := CallFor(d, tok, k);
        var isFlag := e.callback.value.IsFlag?;
        var reply := if isFlag then Reply(false, 0) else respond(call);
        var flags' := if isFlag then flags[e.data := e.flag != 0] else flags;
        assert Honest(call, reply);
        StepResult(Advance(d, tok.kind, call, reply), flags', Some(tok), Matched(k, AsEntered(d, tok)))
  }

  /** When the token selects an entry with a callback, the cursor moves as
      `Advance` says for the callback's reply, and only `isFlag` writes the
      flag storage. */
  lemma DispatchAnswered(d: Cursor, tok: Token, env: Env, flags: map<nat, bool>, respond: Responder)
    requires WellFormed(d) && 1 <= d.argi && TokenFits(d, tok) && EnvValid(env) && WellBehaved(respond)
    requires Resolve(tok, env).Some? && env.table[Resolve(tok, env).value].callback.Some?
    ensures var k := Resolve(tok, env).value;
            var e := env.table[k];
            var call := CallFor(d, tok, k);
            var isFlag := e.callback.value.IsFlag?;
            var r := Dispatch(d, tok, env, flags, respond);
            r.cursor == Advance(d, tok.kind, call, if isFlag then Reply(false, 0) else respond(call)) &&
            r.flags == if isFlag then flags[e.data := e.flag != 0] else flags
  {
    ConnectBounds(d, tok);
  }

  /** One call of the dispatcher. */
  function Step(c: Cursor, env: Env, flags: map<nat, bool>, respond: Responder): (r: StepResult)
    requires WellFormed(c) && EnvValid(env) && WellBehaved(respond)
    ensures WellFormed(r.cursor) && |r.cursor.args| == |c.args|
    ensures forall k :: 0 <= k <= c.argi && k < |c.args| ==> r.cursor.args[k] == c.args[k]
    ensures r.outcome.Exhausted? <==> r.token.None?
    ensures r.outcome.Exhausted? ==> r.cursor.argi == if c.argi < |c.args| then |c.args| else c.argi + 1
    ensures r.outcome.Matched? ==> r.cursor.argi < |c.args|
    ensures r.outcome.Unmatched? ==> 1 <= r.cursor.argi < |c.args|
    ensures r.outcome.Unmatched? ==> r.token.Some? && TokenFits(r.cursor, r.token.value)
    ensures Progress(c, r.cursor)
    ensures r.token == ScanPastEnd(c, env).token
    ensures var s := ScanPastEnd(c, env);
            s.token.Some? ==>
              (r.outcome.Unmatched? <==> Resolve(s.token.value, env).None?) &&
              (r.outcome.Unmatched? ==> r.cursor == s.cursor) &&
              (r.outcome.Matched? ==> Resolve(s.token.value, env) == Some(r.outcome.option))
  {
    var s := ScanPastEnd(c, env);
    if s.token.None? then StepResult(s.cursor, flags, None, Exhausted)
    else Dispatch(s.cursor, s.token.value, env, flags, respond)
  }

  /** Characters of the current bundle not yet passed. */
  function BundleLeft(c: Cursor): nat
    requires WellFormed(c)
  {
    if c.chari == 0 then 0 else |c.args[c.argi]| - c.chari
  }

  /** Every call moves on: to a later argument, or further into the bundle
      of the same one (or past its end). */
  predicate Progress(c: Cursor, d: Cursor)
    requires WellFormed(c) && WellFormed(d)
  {
    c.argi < d.argi ||
    (c.argi == d.argi && c.chari > 0 && d.args == c.args && BundleLeft(d) < BundleLeft(c))
  }

  /** The driver `process`: calls the dispatcher until it reports false. */
  function Drain(c: Cursor, env: Env, flags: map<nat, bool>, respond: Responder): (r: StepResult)
    requires WellFormed(c) && c.argi <= |c.args| && EnvValid(env) && WellBehaved(respond)
    decreases |c.args| - c.argi, BundleLeft(c)
    ensures !r.outcome.Matched? && WellFormed(r.cursor) && |r.cursor.args| == |c.args|
    ensures r.outcome.Exhausted? ==>
              r.cursor.argi == if c.argi < |c.args| then |c.args| else c.argi + 1
    ensures r.outcome.Unmatched? ==> 1 <= r.cursor.argi < |c.args|
    ensures r.outcome.Unmatched? ==> r.token.Some? && TokenFits(r.cursor, r.token.value)
    ensures var s := ScanPastEnd(c, env);
            (s.token.None? ==> r.outcome.Exhausted? && r.cursor == s.cursor) &&
            (s.token.Some? && Resolve(s.token.value, env).None? ==>
               r.outcome.Unmatched? && r.cursor == s.cursor && r.token == s.token)
  {
    var s := Step(c, env, flags, respond);
    if s.outcome.Matched? then Drain(s.cursor, env, s.flags, respond) else s
  }

  // ------------------------------------------------------------------
  // One call

  /** A bare `--` is swallowed: it sets `normalOnly`, and the same call goes
      on to the next argument, which it takes whole as a positional, without
      reordering anything. */
  lemma StepSwallowsEndMarker(c: Cursor, env: Env, flags: map<nat, bool>, respond: Responder)
    requires WellFormed(c) && EnvValid(env) && WellBehaved(respond)
    requires Scan(c, env.optionStart, env.returnsAll.Some?).token == Some(Token(OptLong, ""))
    ensures var e := Scan(c, env.optionStart, env.returnsAll.Some?).cursor;
            var r := Step(c, env, flags, respond);
            r.cursor.normalOnly && r.cursor.args == e.args && r.cursor.argi == e.argi + 1 &&
            r.token == if e.argi + 1 < |e.args| then Some(Token(OptArg, e.args[e.argi + 1])) else None
  {
    var e := Scan(c, env.optionStart, env.returnsAll.Some?).cursor;
    ScanAfterEndOfOptions(e.(normalOnly := true), env.optionStart, env.returnsAll.Some?);
  }

  /** `isFlag` stores the entry's `flag` (as a truth value) into the entry's
      storage slot and answers false, so the cursor stays where the scanner
      left it. */
  lemma FlagOptionStoresFlag(d: Cursor, tok: Token, env: Env, flags: map<nat, bool>, respond: Responder)
    requires WellFormed(d) && 1 <= d.argi && TokenFits(d, tok) && EnvValid(env) && WellBehaved(respond)
    requires Resolve(tok, env).Some? && env.table[Resolve(tok, env).value].callback == Some(IsFlag)
    ensures var e := env.table[Resolve(tok, env).value];
            var r := Dispatch(d, tok, env, flags, respond);
            r.cursor == d && r.flags == flags[e.data := e.flag != 0] && r.outcome.Matched?
  {
  }

  /** After a caller-supplied callback answers: a rejection leaves the
      cursor alone; claimed characters move `chari` by exactly that many;
      an acceptance that claims none ends the bundle, and for an option fed
      from the next argument also steps over that argument. */
  lemma CallbackMovesCursor(d: Cursor, tok: Token, env: Env, flags: map<nat, bool>, respond: Responder)
    requires WellFormed(d) && 1 <= d.argi && TokenFits(d, tok) && EnvValid(env) && WellBehaved(respond)
    requires Resolve(tok, env).Some? && env.table[Resolve(tok, env).value].callback.Some?
    requires env.table[Resolve(tok, env).value].callback.value.External?
    ensures var call := CallFor(d, tok, Resolve(tok, env).value);
            var reply := respond(call);
            var used := UsedChars(call, reply);
            var n := Dispatch(d, tok, env, flags, respond).cursor;
            (!reply.accepted ==> n == d) &&
            (reply.accepted && used > 0 ==> n == d.(chari := d.chari + used)) &&
            (reply.accepted && used == 0 ==>
               n.chari == 0 && n.args == d.args && n.normalOnly == d.normalOnly &&
               n.argi == if tok.kind != OptArg && call.connect == NextArg then d.argi + 1 else d.argi)
  {
    ConnectCases(d, tok);
  }

  /** When a callback claims `used` characters of a value inside a bundle,
      the next scan resumes `used` characters after the option character.
      For an adjacent value that is the first unclaimed character; for a
      value after `=`, `usedChars` counts from after the `=`, so the scan
      resumes on the last claimed character, and a claim of the whole value
      plus the `=` ends the bundle. */
  lemma ClaimedCharsSkipped(d: Cursor, tok: Token, env: Env, flags: map<nat, bool>, respond: Responder)
    requires WellFormed(d) && 1 <= d.argi && TokenFits(d, tok) && EnvValid(env) && WellBehaved(respond)
    requires tok.kind == OptShort && Resolve(tok, env).Some?
    requires env.table[Resolve(tok, env).value].callback.Some?
    requires env.table[Resolve(tok, env).value].callback.value.External?
    requires var call := CallFor(d, tok, Resolve(tok, env).value);
             respond(call).accepted && UsedChars(call, respond(call)) > 0
    ensures var call := CallFor(d, tok, Resolve(tok, env).value);
            var used := UsedChars(call, respond(call));
            var s := d.args[d.argi];
            var v := call.value.value;
            var n := Dispatch(d, tok, env, flags, respond).cursor;
            var next := Scan(n, env.optionStart, env.returnsAll.Some?);
            (d.chari + used + 1 < |s| ==> next.token == Some(Token(OptShort, s[d.chari + used + 1..]))) &&
            (d.chari + used + 1 >= |s| ==> next.cursor.argi == d.argi + 1) &&
            (call.connect == Adjacent ==> s[d.chari + used + 1..] == v[used..]) &&
            (call.connect == WithEquals ==> s[d.chari + used + 1..] == v[used - 1..]) &&
            (call.connect == WithEquals && used == |v| + 1 ==> next.cursor.argi == d.argi + 1)
  {
    ConnectCases(d, tok);
  }

  /** A value taken from the next argument is never scanned: after the
      callback accepts it, the following scan starts two arguments on. */
  lemma ConsumedArgumentSkipped(d: Cursor, tok: Token, env: Env, flags: map<nat, bool>, respond: Responder)
    requires WellFormed(d) && 1 <= d.argi && TokenFits(d, tok) && EnvValid(env) && WellBehaved(respond)
    requires tok.kind != OptArg && Resolve(tok, env).Some?
    requires env.table[Resolve(tok, env).value].callback.Some?
    requires env.table[Resolve(tok, env).value].callback.value.External?
    requires var call := CallFor(d, tok, Resolve(tok, env).value);
             respond(call).accepted && call.connect == NextArg
    ensures var n := Dispatch(d, tok, env, flags, respond).cursor;
            var next := Scan(n, env.optionStart, env.returnsAll.Some?);
            n.argi == d.argi + 1 < |d.args| && next.cursor.argi == d.argi + 2
  {
    ConnectCases(d, tok);
  }

  // ------------------------------------------------------------------
  // The driver

  /** `process` only reorders: the vector it leaves is a permutation of the
      one it was given, and nothing up to the starting index moves (so the
      program name stays in place). */
  lemma {:induction false} DrainPermutes(c: Cursor, env: Env, flags: map<nat, bool>, respond: Responder)
    requires WellFormed(c) && c.argi <= |c.args| && EnvValid(env) && WellBehaved(respond)
    decreases |c.args| - c.argi, BundleLeft(c)
    ensures var r := Drain(c, env, flags, respond);
            multiset(r.cursor.args) == multiset(c.args) &&
            forall k :: 0 <= k <= c.argi && k < |c.args| ==> r.cursor.args[k] == c.args[k]
  {
    var s := Step(c, env, flags, respond);
    StepPermutes(c, env, flags, respond);
    if s.outcome.Matched? {
      DrainPermutes(s.cursor, env, s.flags, respond);
    }
  }

  lemma StepPermutes(c: Cursor, env: Env, flags: map<nat, bool>, respond: Responder)
    requires WellFormed(c) && EnvValid(env) && WellBehaved(respond)
    ensures multiset(Step(c, env, flags, respond).cursor.args) == multiset(c.args)
  {
    var os, ra := env.optionStart, env.returnsAll.Some?;
    var s := Scan(c, os, ra);
    ScanPermutes(c, os, ra);
    if s.token == Some(Token(OptLong, "")) {
      ScanPermutes(s.cursor.(normalOnly := true), os, ra);
    }
  }

  /** `process` stops at a token no entry takes: a positional when there is
      no catch-all, or an option found neither by short nor by long name. */
  lemma {:induction false} DrainStopsAtUnknown(c: Cursor, env: Env, flags: map<nat, bool>, respond: Responder)
    requires WellFormed(c) && c.argi <= |c.args| && EnvValid(env) && WellBehaved(respond)
    decreases |c.args| - c.argi, BundleLeft(c)
    ensures var r := Drain(c, env, flags, respond);
            r.outcome.Unmatched? ==>
              r.token.Some? &&
              var tok := r.token.value;
              match tok.kind
              case OptArg => env.returnsAll.None?
              case OptShort => tok.text != [] && FindShortOption(env.table, tok.text[0]).None?
              case OptLong => FindLongOption(env.table, tok.text).None?
  {
    var s := Step(c, env, flags, respond);
    if s.outcome.Matched? {
      DrainStopsAtUnknown(s.cursor, env, s.flags, respond);
    }
  }

  /** With a catch-all entry, `process` hands every positional to it in
      place and never reorders the vector. */
  lemma {:induction false} DrainWithCatchAllKeepsOrder(c: Cursor, env: Env, flags: map<nat, bool>, respond: Responder)
    requires WellFormed(c) && c.argi <= |c.args| && EnvValid(env) && WellBehaved(respond)
    requires env.returnsAll.Some?
    decreases |c.args| - c.argi, BundleLeft(c)
    ensures Drain(c, env, flags, respond).cursor.args == c.args
  {
    var os := env.optionStart;
    var s := Scan(c, os, true);
    ScanWithCatchAll(c, os);
    if s.token == Some(Token(OptLong, "")) {
      ScanWithCatchAll(s.cursor.(normalOnly := true), os);
    }
    var r := Step(c, env, flags, respond);
    if r.outcome.Matched? {
      DrainWithCatchAllKeepsOrder(r.cursor, env, r.flags, respond);
    }
  }

  /** After the end of options (`normalOnly` set outside a bundle), `process`
      takes every remaining argument whole, in order, as a positional, and
      reorders nothing. */
  lemma {:induction false} DrainAfterEndOfOptions(c: Cursor, env: Env, flags: map<nat, bool>, respond: Responder)
    requires WellFormed(c) && c.argi <= |c.args| && EnvValid(env) && WellBehaved(respond)
    requires c.normalOnly && c.chari == 0
    decreases |c.args| - c.argi
    ensures var r := Drain(c, env, flags, respond);
            r.cursor.args == c.args && r.cursor.normalOnly &&
            (r.token.Some? ==> r.cursor.argi < |c.args| && r.token.value == Token(OptArg, c.args[r.cursor.argi]))
  {
    ScanAfterEndOfOptions(c, env.optionStart, env.returnsAll.Some?);
    var r := Step(c, env, flags, respond);
    if r.outcome.Matched? {
      DrainAfterEndOfOptions(r.cursor, env, r.flags, respond);
    }
  }

  /** A command line with no option-looking argument and no catch-all is
      left as it is, and `process` returns 1. */
  lemma OnlyPositionals(args: seq<string>, env: Env, flags: map<nat, bool>, respond: Responder)
    requires EnvValid(env) && WellBehaved(respond) && env.returnsAll.None?
    requires forall k :: 1 <= k < |args| ==> !OptionLooking(args[k], env.optionStart)
    ensures var r := Drain(Cursor(args, 0, 0, false), env, flags, respond);
            r.cursor.args == args && r.cursor.argi == 1
  {
    var os := env.optionStart;
    var c := Cursor(args, 0, 0, false);
    var d := c.(argi := 1);
    assert Scan(c, os, false) == ScanArgument(d, os, false);
    if |args| > 1 {
      RestartAgrees(args, 1, |args|, os);
      assert SearchFrom(args, 1, 2, os) == (args, false);
      var e := d.(normalOnly := true);
      assert ScanArgument(d, os, false) == Scanned(e, Some(Token(OptArg, args[1])));
      assert Step(c, env, flags, respond).outcome == Unmatched(args[1]);
    }
  }

  /** `prog -- -x`: the `--` is swallowed, `-x` is taken as a positional and
      never looked up, and with no catch-all `process` returns 2. */
  lemma EndMarkerExample(env: Env, flags: map<nat, bool>, respond: Responder)
    requires EnvValid(env) && WellBehaved(respond) && env.returnsAll.None? && '-' in env.optionStart
    ensures var r := Drain(Cursor(["prog", "--", "-x"], 0, 0, false), env, flags, respond);
            r.cursor.argi == 2 && r.cursor.args == ["prog", "--", "-x"] &&
            r.token == Some(Token(OptArg, "-x")) && r.outcome.Unmatched?
  {
    var c := Cursor(["prog", "--", "-x"], 0, 0, false);
    var s := Scan(c, env.optionStart, false);
    assert IsOptionToken(c.args[1], env.optionStart);
    assert s.token == Some(Token(OptLong, ""));
  }
}
