/**
 * The frame tokenizer as a function of its state and one input byte.
 * `Next` is what the state handler of the current state does with the
 * byte at the head of its chunk; `Run` folds it over a chunk.
 */
module TokSpec {
  import opened Ascii

  /** Capacity of the scratch accumulator the tokenizer allocates. */
  const StackCapacity: nat := 32

  /** The current handler, one tag per state method of the tokenizer. */
  datatype State =
    | Start
    | Method
    | HdrLineAlmostDone
    | HdrLineDone
    | HdrLineKey
    | HdrLineVal
    | AlmostDone
    | Done
    | BodyRead
    | BodyReadNoLength
  {
    /** The two body readers, entered from `Done`; no handler drives them. */
    predicate IsBody() {
      this == BodyRead || this == BodyReadNoLength
    }
  }

  /** The kinds the tokenizer reports on its `error` event. */
  datatype ErrorKind = InvalReqline | InvalMethod | InvalFrame | TooBig

  /** The events the tokenizer emits, in emission order. */
  datatype Event =
    | FrameStart
    | MethodName(name: seq<byte>)
    | HeaderKey(key: seq<byte>)
    | HeaderVal(value: seq<byte>)
    | FrameEnd
    | Error(kind: ErrorKind)
  {
    /** Events that hand a completed token out of the accumulator. */
    predicate IsToken() {
      MethodName? || HeaderKey? || HeaderVal?
    }

    function Payload(): seq<byte>
      requires IsToken()
    {
      match this
      case MethodName(n) => n
      case HeaderKey(k) => k
      case HeaderVal(v) => v
    }
  }

  /**
   * What the tokenizer remembers between bytes: the current state, the
   * accumulator's contents, the declared body length still to read (never
   * assigned by the tokenizer, so it keeps its initial value) and the
   * events emitted so far.
   */
  datatype Tok = Tok(state: State, scratch: seq<byte>, contentLeft: nat, trace: seq<Event>)

  /** A freshly constructed tokenizer. */
  const Initial: Tok := Tok(Start, [], 0, [])

  function Emit(t: Tok, e: Event): Tok {
    t.(trace := t.trace + [e])
  }

  /** Push into the accumulator; a full accumulator drops the byte and reports `too_big`. */
  function Push(t: Tok, b: byte): Tok {
    if |t.scratch| < StackCapacity then t.(scratch := t.scratch + [b])
    else Emit(t, Error(TooBig))
  }

  /** Pop the accumulator as the payload of `e`, then continue in `s`. */
  function PopAs(t: Tok, e: seq<byte> -> Event, s: State): Tok {
    Emit(t, e(t.scratch)).(scratch := [], state := s)
  }

  /** The effect of the current handler on one byte. */
  function Next(t: Tok, b: byte): Tok
  {
    match t.state
    case Start =>
      if b == NL || b == NR || b == EOF then t
      else if !IsAsciiUpper(b) then Emit(t, Error(InvalReqline))
      else Emit(t, FrameStart).(scratch := [b], state := Method)
    case Method =>
      if IsAsciiUpper(b) then Push(t, b)
      else if b == NL then PopAs(t, n => MethodName(n), HdrLineDone)
      else if b == NR then PopAs(t, n => MethodName(n), HdrLineAlmostDone)
      else Emit(t, Error(InvalMethod))
    case HdrLineAlmostDone =>
      if b != NL then Emit(t, Error(InvalMethod))
      else t.(state := HdrLineDone)
    case HdrLineDone =>
      if b == NR then t.(state := AlmostDone)
      else if b == NL then t.(state := Done)
      else if !IsPrintNoSpace(b) then Emit(t, Error(InvalReqline))
      else if |t.scratch| < StackCapacity then t.(scratch := t.scratch + [b], state := HdrLineKey)
      else Emit(t, Error(TooBig))
    case HdrLineKey =>
      if b == D2 then PopAs(t, k => HeaderKey(k), HdrLineVal)
      else if IsPrintNoSpace(b) then Push(t, b)
      else if b == NL then t.(state := HdrLineDone)
      else if b == NR then t.(state := HdrLineAlmostDone)
      else Emit(t, Error(InvalFrame))
    case HdrLineVal =>
      if IsPrint(b) then Push(t, b)
      else if b == NR then PopAs(t, v => HeaderVal(v), HdrLineAlmostDone)
      else if b == NL then PopAs(t, v => HeaderVal(v), HdrLineDone)
      else Emit(t, Error(InvalFrame))
    case AlmostDone =>
      if b != NL then Emit(t, Error(InvalReqline))
      else t.(state := Done)
    case Done =>
      if b == EOF then Emit(t, FrameEnd).(state := Start)
      else t.(state := if t.contentLeft > 0 then BodyRead else BodyReadNoLength)
    case BodyRead => t
    case BodyReadNoLength => t
  }

  /**
   * What every step keeps: the declared body length, an append-only event
   * trace growing by at most one event, and an accumulator within capacity.
   * An error drops the byte and changes nothing else; a completed token is
   * exactly what had been accumulated.
   */
  lemma NextShape(t: Tok, b: byte)
    ensures Next(t, b).contentLeft == t.contentLeft
    ensures |t.trace| <= |Next(t, b).trace| <= |t.trace| + 1 && Next(t, b).trace[..|t.trace|] == t.trace
    ensures |t.scratch| <= StackCapacity ==> |Next(t, b).scratch| <= StackCapacity
    // An error drops the byte and changes nothing else.
    ensures |Next(t, b).trace| > |t.trace| && Next(t, b).trace[|t.trace|].Error? ==>
              Next(t, b).state == t.state && Next(t, b).scratch == t.scratch
    // A completed token is exactly what had been accumulated, and leaves the accumulator empty.
    ensures |Next(t, b).trace| > |t.trace| && Next(t, b).trace[|t.trace|].IsToken() ==>
              Next(t, b).trace[|t.trace|].Payload() == t.scratch && Next(t, b).scratch == []
    // A body state is past what the tokenizer handles.
    ensures t.state.IsBody() ==> Next(t, b) == t
  {
  }

  /** The tokenizer after the bytes of `s`, one at a time, from `t`. */
  function Run(t: Tok, s: seq<byte>): Tok
    decreases |s|
  {
    if |s| == 0 then t else Run(Next(t, s[0]), s[1..])
  }

  /** Chunk-boundary invariance: feeding `a` then `b` is feeding `a + b`. */
  lemma {:induction false} RunAppend(t: Tok, a: seq<byte>, b: seq<byte>)
    ensures Run(t, a + b) == Run(Run(t, a), b)
    decreases |a|
  {
    if |a| == 0 {
      assert a + b == b;
    } else {
      assert (a + b)[0] == a[0];
      assert (a + b)[1..] == a[1..] + b;
      RunAppend(Next(t, a[0]), a[1..], b);
    }
  }

  /** One more byte at the end of a chunk is one more `Next`. */
  lemma RunSnoc(t: Tok, s: seq<byte>, b: byte)
    ensures Run(t, s + [b]) == Next(Run(t, s), b)
  {
    RunAppend(t, s, [b]);
    assert [b][1..] == [];
  }

  /** The slice form of `RunSnoc` used by loops that walk a chunk by index. */
  lemma RunSlice(t: Tok, data: seq<byte>, from: nat, i: nat)
    requires from <= i < |data|
    ensures Run(t, data[from..i + 1]) == Next(Run(t, data[from..i]), data[i])
  {
    assert data[from..i + 1] == data[from..i] + [data[i]];
    RunSnoc(t, data[from..i], data[i]);
  }
}
