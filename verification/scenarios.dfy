/** Whole command lines run through `process`, with a concrete table. */
module Scenarios {
  import opened Types
  import opened Lookup
  import opened Scanner
  import opened Dispatch

  /** `-v`/`--verbose` is a flag stored in slot 0; `-o`/`--output` takes a
      value through a caller-supplied callback; there is no catch-all. */
  function VerboseOutputTable(): (t: seq<OptionEntry>)
    ensures TableValid(t) && CheckReturnAll(t).None?
  {
    var t := [OptionEntry('v', Some("verbose"), 1, Some(IsFlag), 0),
              OptionEntry('o', Some("output"), 0, Some(External(0)), 1),
              OptionEntry(NoShortName, None, 0, None, 0)];
    assert IsTerminator(t[2]);
    assert FirstNameless(t, 0) == 2;
    t
  }

  const Args0: seq<string> := ["prog", "file1", "-v", "--output=out.txt", "file2"]
  const Args1: seq<string> := ["prog", "-v", "file1", "--output=out.txt", "file2"]
  const Args2: seq<string> := ["prog", "-v", "--output=out.txt", "file1", "file2"]

  /** First call: `-v` is rotated ahead of `file1` and its flag stored. */
  lemma VerboseFirstCall(respond: Responder)
    requires WellBehaved(respond)
    ensures Step(Cursor(Args0, 0, 0, false), Env(VerboseOutputTable(), None, {'-'}), map[], respond)
            == StepResult(Cursor(Args1, 1, 1, false), map[0 := true], Some(Token(OptShort, "v")), Matched(0, "-v"))
  {
    var t := VerboseOutputTable();
    var os: set<char> := {'-'};
    var c0 := Cursor(Args0, 0, 0, false);
    assert Rotated(Args0, 1, 2) == Args1;
    SearchFirstHit(Args0, 1, 2, 2, os);
    assert Scan(c0, os, false) == Scanned(Cursor(Args1, 1, 1, false), Some(Token(OptShort, "v")));
    assert FindShortOption(t, 'v') == Some(0);
  }

  /** No long name in the table equals `output=out.txt`, whatever the case. */
  lemma EqualsFormNotFound()
    ensures FindLongOption(VerboseOutputTable(), "output=out.txt").None?
  {
    var t := VerboseOutputTable();
    assert !SameIgnoringCase("verbose", "output=out.txt");
    assert !SameIgnoringCase("output", "output=out.txt");
    assert FindLongFrom(t, "output=out.txt", 2).None?;
    assert FindLongFrom(t, "output=out.txt", 1).None?;
  }

  /** The scan of the second call: the bundle `-v` ends and
      `--output=out.txt` is rotated ahead of `file1`. */
  lemma SecondScan()
    ensures Scan(Cursor(Args1, 1, 1, false), {'-'}, false)
            == Scanned(Cursor(Args2, 2, 0, false), Some(Token(OptLong, "output=out.txt")))
  {
    var os: set<char> := {'-'};
    assert Rotated(Args1, 2, 3) == Args2;
    SearchFirstHit(Args1, 2, 3, 3, os);
    assert Scan(Cursor(Args1, 1, 1, false), os, false)
        == ScanArgument(Cursor(Args1, 2, 0, false), os, false);
  }

  /** Second call: no long name equals the whole text after `--`, so the
      call stops on `--output=out.txt` without moving the cursor. */
  lemma OutputSecondCall(respond: Responder)
    requires WellBehaved(respond)
    ensures var r := Step(Cursor(Args1, 1, 1, false), Env(VerboseOutputTable(), None, {'-'}), map[0 := true], respond);
            r.cursor == Cursor(Args2, 2, 0, false) && r.flags == map[0 := true] &&
            r.outcome == Unmatched("--output=out.txt")
  {
    SecondScan();
    EqualsFormNotFound();
  }

  /** `prog file1 -v --output=out.txt file2`: `-v` is rotated ahead of
      `file1` and stores its flag; `--output=out.txt` is rotated next, but no
      long name equals the whole text after `--`, so `process` stops there
      and returns 2, with the vector partly reordered. */
  lemma EqualsFormStopsProcess(respond: Responder)
    requires WellBehaved(respond)
    ensures var r := Drain(Cursor(Args0, 0, 0, false), Env(VerboseOutputTable(), None, {'-'}), map[], respond);
            r.cursor == Cursor(Args2, 2, 0, false) &&
            r.flags == map[0 := true] &&
            r.outcome == Unmatched("--output=out.txt")
  {
    var env := Env(VerboseOutputTable(), None, {'-'});
    VerboseFirstCall(respond);
    OutputSecondCall(respond);
    assert Drain(Cursor(Args0, 0, 0, false), env, map[], respond)
        == Drain(Cursor(Args1, 1, 1, false), env, map[0 := true], respond);
  }
}
