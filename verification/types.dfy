/** The declarations of the option parser's header: its enums, the option
    descriptor, and the callback protocol shared by every option. */
module Types {

  datatype Option<+T> = None | Some(value: T)

  /** How a value reached an option's callback. */
  datatype Connection = NextArg | WithEquals | Adjacent

  /** The per-option match state of the header. This revision declares it
      but never writes it. */
  datatype Found = NotFound | NoArg | WithArg

  /** The kind of token the scanner hands to the dispatcher: a positional
      argument, a long option or a short option inside a bundle. */
  datatype TokenKind = OptArg | OptLong | OptShort

  /** The header's `unsigned flag` word and its two named bits. */
  const NeedArg: bv32 := 0x01
  const Repeatable: bv32 := 0x02

  /** The character that stands for "no short name". */
  const NoShortName: char := '\0'

  /** The callback stored in a descriptor: the library's `isFlag`, or a
      caller-supplied function identified by `id` and answered by a
      responder (see `Call` and `Reply`). */
  datatype Callback = IsFlag | External(id: nat)

  /** One row of the option table. `data` names the caller's storage slot
      that `isFlag` writes. */
  datatype OptionEntry = OptionEntry(
    shortName: char,
    longName: Option<string>,
    flag: bv32,
    callback: Option<Callback>,
    data: nat)

  /** The all-null row that ends the table. */
  predicate IsTerminator(e: OptionEntry)
  {
    e.shortName == NoShortName && e.longName.None? && e.callback.None?
  }

  /** An entry with neither a short nor a long name. */
  predicate Nameless(e: OptionEntry)
  {
    e.shortName == NoShortName && e.longName.None?
  }

  /** A table the parser may be given: somewhere it is terminated. */
  ghost predicate TableValid(t: seq<OptionEntry>)
  {
    exists k :: 0 <= k < |t| && IsTerminator(t[k])
  }

  /** What a callback is handed: the index of its option, the text as the
      user typed it, how the value is connected, the value (absent at the
      end of the argument vector) and whether a `usedChars` slot exists. */
  datatype Call = Call(
    option: nat,
    asEntered: string,
    connect: Connection,
    value: Option<string>,
    mayUseChars: bool)

  /** What a callback answers: whether it accepted the value, and how many
      characters of the value it claimed (read only when a slot exists). */
  datatype Reply = Reply(accepted: bool, usedChars: nat)

  /** A caller-supplied callback, as a function of what it is handed. */
  type Responder = Call -> Reply

  /** The characters a reply claims: the slot is only read when passed. */
  function UsedChars(call: Call, reply: Reply): nat
  {
    if call.mayUseChars then reply.usedChars else 0
  }

  /** The characters after the option character that a claim can cover:
      the value, and the `=` before it when the value follows one. */
  function Claimable(call: Call): nat
    requires call.value.Some?
  {
    |call.value.value| + if call.connect == WithEquals then 1 else 0
  }

  /** A reply the dispatcher can act on: it never accepts a value that is
      absent, and never claims more characters than the rest of the
      argument after the option character holds. */
  predicate Honest(call: Call, reply: Reply)
  {
    (reply.accepted ==> call.value.Some?) &&
    (reply.accepted && call.mayUseChars ==> reply.usedChars <= Claimable(call))
  }

  ghost predicate WellBehaved(respond: Responder)
  {
    forall call :: Honest(call, respond(call))
  }

  /** `needArg` and `repeatable` are distinct single bits of `flag`: setting
      one never changes the test of the other. */
  lemma FlagBitsIndependent(f: bv32)
    ensures NeedArg & Repeatable == 0
    ensures (f | NeedArg) & NeedArg == NeedArg && (f | Repeatable) & Repeatable == Repeatable
    ensures (f | NeedArg) & Repeatable == f & Repeatable
    ensures (f | Repeatable) & NeedArg == f & NeedArg
  {
  }
}
