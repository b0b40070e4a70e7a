/** The parser object: the table and its cached catch-all, the argument
    vector it reorders in place, and the cursor fields its methods advance.
    Every method is proved to do exactly what the matching specification
    function of `Scanner` or `Dispatch` describes. */
module Engine {
  import opened Types
  import opened Lookup
  import opened Scanner
  import opened Dispatch

  class GetOpt {
    const table: seq<OptionEntry>
    const returningAll: Option<nat>
    var optionStart: set<char>
    var argv: array<string>
    var argi: int
    var chari: nat
    var normalOnly: bool
    const shortOptionBuf: array<char>
    /** The caller's storage that `isFlag` writes, by slot. */
    var flags: map<nat, bool>

    /** The fixed configuration the specification functions take. */
    ghost function Config(): Env
      reads this`optionStart
    {
      Env(table, returningAll, optionStart)
    }

    /** The cursor fields together with the current vector. */
    ghost function State(): Cursor
      reads this`argv, this`argi, this`chari, this`normalOnly, argv
    {
      Cursor(argv[..], argi, chari, normalOnly)
    }

    ghost predicate Valid()
      reads this`optionStart, this`argv, this`argi, this`chari, this`normalOnly, argv
    {
      EnvValid(Config()) && WellFormed(State()) && shortOptionBuf.Length == 3
    }

    /** The table is cached and its catch-all found once; the option-start
        characters default to `-`; no vector is attached yet. */
    constructor (aList: seq<OptionEntry>)
      requires TableValid(aList)
      ensures table == aList && returningAll == CheckReturnAll(aList) && optionStart == {'-'}
      ensures argv.Length == 0 && argi == 0 && chari == 0 && !normalOnly && flags == map[]
      ensures Valid() && fresh(argv) && fresh(shortOptionBuf)
    {
      table := aList;
      var r := FindCatchAll(aList);
      returningAll := r;
      optionStart := {'-'};
      argv := new string[0];
      argi, chari := 0, 0;
      normalOnly := false;
      shortOptionBuf := new char[3];
      flags := map[];
    }

    /** Attaches a vector and rewinds the cursor to the program name. */
    method Init(theArgv: array<string>)
      requires EnvValid(Config()) && shortOptionBuf.Length == 3
      modifies this`argv, this`argi, this`chari, this`normalOnly
      ensures argv == theArgv && argi == 0 && chari == 0 && !normalOnly
      ensures optionStart == old(optionStart) && flags == old(flags)
      ensures Valid()
    {
      argv := theArgv;
      argi, chari := 0, 0;
      normalOnly := false;
    }

    /** The index of the argument under the cursor. */
    function CurrentArg(): (r: int)
      reads this
      ensures r == State().argi
    {
      argi
    }

    /** The library callback `isFlag`: stores the entry's flag, as a truth
        value, in the entry's slot, and declines the value. */
    method IsFlag(option: OptionEntry) returns (accepted: bool)
      modifies this`flags
      ensures flags == old(flags)[option.data := option.flag != 0] && !accepted
    {
      flags := flags[option.data := option.flag != 0];
      accepted := false;
    }

    /** Moves `argv[j]` to slot `a`, shifting `argv[a..j]` one slot right. */
    method RotateIntoPlace(a: int, j: int)
      requires 0 <= a <= j < argv.Length
      modifies argv
      ensures argv[..] == Rotated(old(argv[..]), a, j)
    {
      var arg := argv[j];
      var i := j;
      while i > a
        invariant a <= i <= j
        invariant forall k :: 0 <= k < argv.Length && (k <= i || j < k) ==> argv[k] == old(argv[k])
        invariant forall k :: i < k <= j ==> argv[k] == old(argv[k - 1])
      {
        argv[i] := argv[i - 1];
        i := i - 1;
      }
      argv[a] := arg;
      ghost var want := Rotated(old(argv[..]), a, j);
      forall k | 0 <= k < argv.Length
        ensures argv[k] == want[k]
      {
      }
    }

    /** The search for a later option argument: each option-looking argument
        after slot `a` is rotated into slot `a`, until an option token has
        landed there. A lone option-start character that lands is passed
        over and the search goes on after the slot it came from. */
    method SearchLater(a: int) returns (found: bool)
      requires 0 <= a < argv.Length
      modifies argv
      ensures var r := SearchFrom(old(argv[..]), a, a + 1, optionStart);
              argv[..] == r.0 && found == r.1
      ensures found ==> IsOptionToken(argv[a], optionStart)
    {
      SearchFromMeaning(argv[..], a, a + 1, optionStart);
      ghost var target := SearchFrom(argv[..], a, a + 1, optionStart);
      var i := a + 1;
      while i < argv.Length
        invariant a < i <= argv.Length
        invariant SearchFrom(argv[..], a, i, optionStart) == target
        decreases argv.Length - i
      {
        if OptionLooking(argv[i], optionStart) {
          RotateIntoPlace(a, i);
          if IsOptionToken(argv[a], optionStart) {
            return true;
          }
        }
        i := i + 1;
      }
      return false;
    }

    /** The scanner `nextOption(option, type)`: the next character of a
        bundle, or else the next argument. */
    method NextToken() returns (more: bool, option: string, kind: TokenKind)
      requires Valid()
      modifies this`chari, this`argi, this`normalOnly, argv
      ensures Valid() && argv == old(argv)
      ensures optionStart == old(optionStart) && flags == old(flags)
      ensures var s := Scan(old(State()), old(optionStart), returningAll.Some?);
              State() == s.cursor && more == s.token.Some? &&
              (more ==> Token(kind, option) == s.token.value)
    {
      if chari > 0 {
        if chari + 1 < |argv[argi]| {
          chari := chari + 1;
          return true, argv[argi][chari..], OptShort;
        }
        chari := 0;
      }
      argi := argi + 1;
      more, option, kind := NextArgument();
    }

    /** The scan of the argument at `argi`: exhaustion past the end, a
        positional once `normalOnly` is set, an option token classified, or
        else, with no catch-all, the search for a later option argument,
        which latches `normalOnly` when it finds none. */
    method NextArgument() returns (more: bool, option: string, kind: TokenKind)
      requires Valid() && 1 <= argi && chari == 0
      modifies this`chari, this`normalOnly, argv
      ensures Valid() && argv == old(argv)
      ensures optionStart == old(optionStart) && flags == old(flags)
      ensures var s := ScanArgument(old(State()), old(optionStart), returningAll.Some?);
              State() == s.cursor && more == s.token.Some? &&
              (more ==> Token(kind, option) == s.token.value)
    {
      if argi >= argv.Length {
        return false, "", OptArg;
      }
      var arg := argv[argi];
      if !normalOnly {
        if OptionLooking(arg, optionStart) && |arg| >= 2 {
          option, kind := Land();
          return true, option, kind;
        }
        if returningAll.None? {
          var found := SearchLater(argi);
          if found {
            option, kind := Land();
            return true, option, kind;
          }
          arg := argv[argi];
          normalOnly := true;
        }
      }
      return true, arg, OptArg;
    }

    /** The option token under the cursor, classified: a long option after
        `--`, or else a bundle, whose first character the cursor moves to. */
    method Land() returns (option: string, kind: TokenKind)
      requires Valid() && 1 <= argi < argv.Length && chari == 0
      requires IsOptionToken(argv[argi], optionStart)
      modifies this`chari
      ensures Valid()
      ensures var s := Landed(old(State()), optionStart);
              State() == s.cursor && s.token == Some(Token(kind, option))
    {
      var arg := argv[argi];
      if IsLongStart(arg) {
        return arg[2..], OptLong;
      }
      chari := 1;
      return arg[1..], OptShort;
    }

    /** How the value of the current option is connected: after `=` or
        adjacent inside a bundle, after `=` in a long option, or else the
        next argument; a positional is its own value. */
    method ValueLink(kind: TokenKind, arg: string) returns (l: Link)
      requires TokenFits(State(), Token(kind, arg))
      ensures l == Connect(State(), Token(kind, arg))
    {
      var mayUseChars := false;
      var connect := NextArg;
      var value := Some(arg);
      if kind != OptArg {
        var s := argv[argi];
        if kind == OptShort && chari + 1 < |s| {
          mayUseChars := true;
          if s[chari + 1] == '=' {
            value := Some(s[chari + 2..]);
            connect := WithEquals;
          } else {
            value := Some(s[chari + 1..]);
            connect := Adjacent;
          }
        } else if kind == OptLong && '=' in arg {
          value := Some(arg[FirstIndex(arg, '=') + 1..]);
          connect := WithEquals;
        } else if argi + 1 < argv.Length {
          value := Some(argv[argi + 1]);
        } else {
          value := None;
        }
      }
      l := Link(connect, value, mayUseChars);
    }

    /** The scanner, called again while it yields a bare `--`, which sets
        `normalOnly` and is never handed on. */
    method NextRealToken() returns (more: bool, arg: string, kind: TokenKind)
      requires Valid()
      modifies this`chari, this`argi, this`normalOnly, argv
      ensures Valid() && argv == old(argv) && optionStart == old(optionStart) && flags == old(flags)
      ensures var s := ScanPastEnd(old(State()), old(Config()));
              State() == s.cursor && more == s.token.Some? && (more ==> Token(kind, arg) == s.token.value)
    {
      ghost var c := State();
      ghost var env := Config();
      more, arg, kind := NextToken();
      ghost var rounds := 0;
      while more && kind == OptLong && arg == ""
        invariant Valid() && argv == old(argv) && Config() == env && flags == old(flags)
        invariant rounds == 0 ==>
                    var s := Scan(c, env.optionStart, returningAll.Some?);
                    State() == s.cursor && more == s.token.Some? && (more ==> Token(kind, arg) == s.token.value)
        invariant rounds == 1 ==>
                    var s := ScanPastEnd(c, env);
                    State() == s.cursor && more == s.token.Some? && (more ==> Token(kind, arg) == s.token.value)
        invariant rounds <= 1
        decreases 1 - rounds
      {
        normalOnly := true;
        more, arg, kind := NextToken();
        rounds := rounds + 1;
      }
    }

    /** The entry a token selects, and the text the user typed for it: a
        short option is spelled into `shortOptionBuf`. */
    method LookUp(kind: TokenKind, arg: string) returns (found: Option<nat>, asEntered: string)
      requires Valid() && 1 <= argi && TokenFits(State(), Token(kind, arg))
      modifies shortOptionBuf
      ensures found == Resolve(Token(kind, arg), Config())
      ensures asEntered == AsEntered(State(), Token(kind, arg))
      ensures kind == OptShort ==> shortOptionBuf[..] == asEntered + ['\0']
      ensures kind != OptShort ==> shortOptionBuf[..] == old(shortOptionBuf[..])
    {
      if kind == OptShort {
        shortOptionBuf[0] := argv[argi][0];
        shortOptionBuf[1] := arg[0];
        shortOptionBuf[2] := '\0';
        asEntered := shortOptionBuf[..2];
        found := FindShort(table, arg[0]);
      } else {
        asEntered := argv[argi];
        if kind == OptArg {
          found := returningAll;
        } else {
          found := FindLong(table, arg);
        }
      }
    }

    /** Calls the callback of entry `k` and moves the cursor by what it
        accepted. */
    method Answer(k: nat, kind: TokenKind, arg: string, asEntered: string, respond: Responder)
      requires Valid() && 1 <= argi && TokenFits(State(), Token(kind, arg)) && WellBehaved(respond)
      requires Resolve(Token(kind, arg), Config()) == Some(k) && table[k].callback.Some?
      requires asEntered == AsEntered(State(), Token(kind, arg))
      modifies this`flags, this`chari, this`argi
      ensures var r := Dispatch.Dispatch(old(State()), Token(kind, arg), Config(), old(flags), respond);
              State() == r.cursor && flags == r.flags
    {
      ghost var d, tok := State(), Token(kind, arg);
      var e := table[k];
      var link := ValueLink(kind, arg);
      var call := Call(k, asEntered, link.connect, link.value, link.mayUseChars);
      ConnectBounds(d, tok);
      DispatchAnswered(d, tok, Config(), flags, respond);
      assert call == CallFor(d, tok, k);
      var reply: Reply;
      if e.callback.value.IsFlag? {
        var accepted := IsFlag(e);
        reply := Reply(accepted, 0);
      } else {
        reply := respond(call);
      }
      MoveCursor(kind, call, reply);
    }

    /** The cursor update once the callback has answered: claimed characters
        move `chari`; an acceptance claiming none ends the bundle and, for an
        option fed from the next argument, steps over that argument. */
    method MoveCursor(kind: TokenKind, call: Call, reply: Reply)
      requires WellFormed(State()) && argi < argv.Length && Honest(call, reply)
      requires call.mayUseChars ==>
                 kind == OptShort && call.value.Some? && 1 <= chari &&
                 chari + Claimable(call) < |argv[argi]|
      requires kind != OptArg && call.connect == NextArg && call.value.Some? ==> argi + 1 < argv.Length
      requires kind == OptArg ==> chari == 0
      modifies this`chari, this`argi
      ensures State() == Advance(old(State()), kind, call, reply)
    {
      var usedChars := if call.mayUseChars then reply.usedChars else 0;
      if reply.accepted {
        if usedChars > 0 {
          chari := chari + usedChars;
        } else {
          chari := 0;
          if kind != OptArg && call.connect == NextArg {
            argi := argi + 1;
          }
        }
      }
    }

    /** The dispatcher `nextOption(option, asEntered)`: skips a bare `--`,
        looks the token up and, when the entry has a callback, answers it. */
    method NextOption(respond: Responder) returns (ok: bool, option: Option<nat>, asEntered: string)
      requires Valid() && WellBehaved(respond)
      modifies this`chari, this`argi, this`normalOnly, this`flags, argv, shortOptionBuf
      ensures Valid() && argv == old(argv) && optionStart == old(optionStart)
      ensures var r := Step(old(State()), old(Config()), old(flags), respond);
              State() == r.cursor && flags == r.flags && ok == r.outcome.Matched? &&
              (r.outcome.Matched? ==> option == Some(r.outcome.option) && asEntered == r.outcome.asEntered) &&
              (r.outcome.Unmatched? ==> option.None? && asEntered == r.outcome.asEntered)
      ensures var r := Step(old(State()), old(Config()), old(flags), respond);
              if r.token.Some? && r.token.value.kind == OptShort
              then shortOptionBuf[..] == asEntered + ['\0']
              else shortOptionBuf[..] == old(shortOptionBuf[..])
    {
      var more, arg, kind := NextRealToken();
      if !more {
        return false, None, "";
      }
      var found;
      found, asEntered := LookUp(kind, arg);
      if found.None? {
        return false, None, asEntered;
      }
      if table[found.value].callback.Some? {
        Answer(found.value, kind, arg, asEntered, respond);
      }
      return true, found, asEntered;
    }

    /** `process`: attaches the vector, calls the dispatcher until it reports
        false, and returns the index it stopped at. */
    method Process(theArgv: array<string>, respond: Responder) returns (r: int)
      requires EnvValid(Config()) && shortOptionBuf.Length == 3 && WellBehaved(respond)
      modifies this`argv, this`chari, this`argi, this`normalOnly, this`flags, theArgv, shortOptionBuf
      ensures Valid() && argv == theArgv && optionStart == old(optionStart)
      ensures var d := Drain(Cursor(old(theArgv[..]), 0, 0, false), old(Config()), old(flags), respond);
              State() == d.cursor && flags == d.flags && r == d.cursor.argi
    {
      ghost var goal := Drain(Cursor(theArgv[..], 0, 0, false), Config(), flags, respond);
      ghost var env := Config();
      Init(theArgv);
      var ok := true;
      while ok
        invariant Valid() && argv == theArgv && Config() == env
        invariant ok ==> argi <= argv.Length && Drain(State(), env, flags, respond) == goal
        invariant !ok ==> State() == goal.cursor && flags == goal.flags
        decreases ok, argv.Length - argi, BundleLeft(State())
      {
        var option, asEntered;
        ok, option, asEntered := NextOption(respond);
      }
      return argi;
    }
  }
}
