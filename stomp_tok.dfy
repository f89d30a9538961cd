/**
 * The incremental STOMP frame tokenizer. Each state handler consumes a
 * prefix of the chunk starting at `from` and returns where it stopped;
 * `Parse` calls the handler of the current state until the chunk is used up.
 */
module Stomp {
  import opened Ascii
  import opened TokSpec
  import opened Stack
  import opened TokProps

  class StompTok {
    /** The scratch accumulator, allocated once with capacity 32. */
    const stackBuf: ParserStack
    var parseState: State
    /** Declared `content-length` bookkeeping; nothing assigns these after construction. */
    var contentLength: nat
    var contentLeft: nat
    var isContentLength: bool
    /** Every event emitted so far, as the listeners would have received them. */
    var trace: seq<Event>

    ghost predicate Valid()
      reads this, stackBuf
    {
      stackBuf.Valid() && stackBuf.arr.Length == StackCapacity
    }

    /** The tokenizer's state as the value `TokSpec` computes with. */
    ghost function Model(): Tok
      reads this, stackBuf, stackBuf.arr
      requires Valid()
    {
      Tok(parseState, stackBuf.Contents(), contentLeft, trace)
    }

    constructor ()
      ensures Valid() && fresh(stackBuf) && fresh(stackBuf.arr)
      ensures Model() == Initial
      ensures contentLength == 0 && !isContentLength
    {
      stackBuf := new ParserStack(StackCapacity);
      parseState := Start;
      contentLength := 0;
      contentLeft := 0;
      trace := [];
      isContentLength := false;
    }

    method EmitEvent(e: Event)
      modifies this`trace
      ensures trace == old(trace) + [e]
    {
      trace := trace + [e];
    }

    /** Skips line ends and NULs; the first other byte starts a frame or is rejected. */
    method StartState(data: seq<byte>, from: nat) returns (next: nat)
      requires Valid() && parseState == Start && from < |data|
      modifies this, stackBuf, stackBuf.arr
      ensures Valid() && contentLength == old(contentLength) && isContentLength == old(isContentLength)
      ensures from < next <= |data|
      ensures Model() == Run(old(Model()), data[from..next])
    {
      ghost var t0 := Model();
      var idx := from;
      while true
        invariant from <= idx < |data|
        invariant Valid() && parseState == Start
        invariant contentLength == old(contentLength) && isContentLength == old(isContentLength)
        invariant Model() == Run(t0, data[from..idx])
        decreases |data| - idx
      {
        var ch := data[idx];
        RunSlice(t0, data, from, idx);
        idx := idx + 1;
        if ch == NL || ch == NR || ch == EOF {
        } else if !IsAsciiUpper(ch) {
          EmitEvent(Error(InvalReqline));
          return idx;
        } else {
          EmitEvent(FrameStart);
          stackBuf.Clear();
          var _ := stackBuf.Push(ch);
          parseState := Method;
          return idx;
        }
        if idx == |data| {
          return idx;
        }
      }
    }

    /** Accumulates `A`..`Z`; a line end hands the method name out. */
    method MethodState(data: seq<byte>, from: nat) returns (next: nat)
      requires Valid() && parseState == Method && from < |data|
      modifies this, stackBuf, stackBuf.arr
      ensures Valid() && contentLength == old(contentLength) && isContentLength == old(isContentLength)
      ensures from < next <= |data|
      ensures Model() == Run(old(Model()), data[from..next])
    {
      ghost var t0 := Model();
      var idx := from;
      while true
        invariant from <= idx < |data|
        invariant Valid() && parseState == Method
        invariant contentLength == old(contentLength) && isContentLength == old(isContentLength)
        invariant Model() == Run(t0, data[from..idx])
        decreases |data| - idx
      {
        var ch := data[idx];
        RunSlice(t0, data, from, idx);
        idx := idx + 1;
        if IsAsciiUpper(ch) {
          var ok := stackBuf.Push(ch);
          if !ok {
            EmitEvent(Error(TooBig));
            return idx;
          }
        } else if ch == NL {
          var name := stackBuf.Pop();
          EmitEvent(MethodName(name));
          parseState := HdrLineDone;
          return idx;
        } else if ch == NR {
          var name := stackBuf.Pop();
          EmitEvent(MethodName(name));
          parseState := HdrLineAlmostDone;
          return idx;
        } else {
          EmitEvent(Error(InvalMethod));
          return idx;
        }
        if idx == |data| {
          return idx;
        }
      }
    }

    /** Expects the `\n` after a `\r`. */
    method HdrLineAlmostDoneState(data: seq<byte>, from: nat) returns (next: nat)
      requires Valid() && parseState == HdrLineAlmostDone && from < |data|
      modifies this, stackBuf, stackBuf.arr
      ensures Valid() && contentLength == old(contentLength) && isContentLength == old(isContentLength)
      ensures next == from + 1
      ensures Model() == Run(old(Model()), data[from..next])
    {
      RunSlice(Model(), data, from, from);
      var ch := data[from];
      next := from + 1;
      if ch != NL {
        EmitEvent(Error(InvalMethod));
        return;
      }
      parseState := HdrLineDone;
    }

    /** At the start of a line: a line end closes the header block, anything else starts a key. */
    method HdrLineDoneState(data: seq<byte>, from: nat) returns (next: nat)
      requires Valid() && parseState == HdrLineDone && from < |data|
      modifies this, stackBuf, stackBuf.arr
      ensures Valid() && contentLength == old(contentLength) && isContentLength == old(isContentLength)
      ensures next == from + 1
      ensures Model() == Run(old(Model()), data[from..next])
    {
      RunSlice(Model(), data, from, from);
      var ch := data[from];
      next := from + 1;
      if ch == NR {
        parseState := AlmostDone;
        return;
      } else if ch == NL {
        parseState := Done;
        return;
      }
      if !IsPrintNoSpace(ch) {
        EmitEvent(Error(InvalReqline));
        return;
      }
      var ok := stackBuf.Push(ch);
      if !ok {
        EmitEvent(Error(TooBig));
        return;
      }
      parseState := HdrLineKey;
    }

    /** Accumulates a header key up to the `:`. */
    method HdrLineKeyState(data: seq<byte>, from: nat) returns (next: nat)
      requires Valid() && parseState == HdrLineKey && from < |data|
      modifies this, stackBuf, stackBuf.arr
      ensures Valid() && contentLength == old(contentLength) && isContentLength == old(isContentLength)
      ensures from < next <= |data|
      ensures Model() == Run(old(Model()), data[from..next])
    {
      ghost var t0 := Model();
      var idx := from;
      while true
        invariant from <= idx < |data|
        invariant Valid() && parseState == HdrLineKey
        invariant contentLength == old(contentLength) && isContentLength == old(isContentLength)
        invariant Model() == Run(t0, data[from..idx])
        decreases |data| - idx
      {
        var ch := data[idx];
        RunSlice(t0, data, from, idx);
        idx := idx + 1;
        if ch == D2 {
          var key := stackBuf.Pop();
          EmitEvent(HeaderKey(key));
          parseState := HdrLineVal;
          return idx;
        } else if IsPrintNoSpace(ch) {
          var ok := stackBuf.Push(ch);
          if !ok {
            EmitEvent(Error(TooBig));
            return idx;
          }
        } else if ch == NL {
          parseState := HdrLineDone;
          return idx;
        } else if ch == NR {
          parseState := HdrLineAlmostDone;
          return idx;
        } else {
          EmitEvent(Error(InvalFrame));
          return idx;
        }
        if idx == |data| {
          return idx;
        }
      }
    }

    /** Accumulates a header value up to the line end. */
    method HdrLineValState(data: seq<byte>, from: nat) returns (next: nat)
      requires Valid() && parseState == HdrLineVal && from < |data|
      modifies this, stackBuf, stackBuf.arr
      ensures Valid() && contentLength == old(contentLength) && isContentLength == old(isContentLength)
      ensures from < next <= |data|
      ensures Model() == Run(old(Model()), data[from..next])
    {
      ghost var t0 := Model();
      var idx := from;
      while true
        invariant from <= idx < |data|
        invariant Valid() && parseState == HdrLineVal
        invariant contentLength == old(contentLength) && isContentLength == old(isContentLength)
        invariant Model() == Run(t0, data[from..idx])
        decreases |data| - idx
      {
        var ch := data[idx];
        RunSlice(t0, data, from, idx);
        idx := idx + 1;
        if IsPrint(ch) {
          var ok := stackBuf.Push(ch);
          if !ok {
            EmitEvent(Error(TooBig));
            return idx;
          }
        } else if ch == NR {
          var value := stackBuf.Pop();
          EmitEvent(HeaderVal(value));
          parseState := HdrLineAlmostDone;
          return idx;
        } else if ch == NL {
          var value := stackBuf.Pop();
          EmitEvent(HeaderVal(value));
          parseState := HdrLineDone;
          return idx;
        } else {
          EmitEvent(Error(InvalFrame));
          return idx;
        }
        if idx == |data| {
          return idx;
        }
      }
    }

    /** Expects the `\n` that ends the blank line after a `\r`. */
    method AlmostDoneState(data: seq<byte>, from: nat) returns (next: nat)
      requires Valid() && parseState == AlmostDone && from < |data|
      modifies this, stackBuf, stackBuf.arr
      ensures Valid() && contentLength == old(contentLength) && isContentLength == old(isContentLength)
      ensures next == from + 1
      ensures Model() == Run(old(Model()), data[from..next])
    {
      RunSlice(Model(), data, from, from);
      var ch := data[from];
      next := from + 1;
      if ch != NL {
        EmitEvent(Error(InvalReqline));
        return;
      }
      parseState := Done;
    }

    /** After the header block: NUL ends the frame; any other byte belongs to the body. */
    method DoneState(data: seq<byte>, from: nat) returns (next: nat)
      requires Valid() && parseState == Done && from < |data|
      modifies this, stackBuf, stackBuf.arr
      ensures Valid() && contentLength == old(contentLength) && isContentLength == old(isContentLength)
      ensures Model() == Next(old(Model()), data[from])
      ensures next == if data[from] == EOF then from + 1 else from
      ensures next == from ==> parseState.IsBody()
    {
      var ch := data[from];
      next := from;
      if ch == EOF {
        next := next + 1;
        parseState := Start;
        EmitEvent(FrameEnd);
      } else {
        parseState := if contentLeft > 0 then BodyRead else BodyReadNoLength;
      }
    }

    /**
     * Runs the handler of the current state on the chunk from `from`: the
     * rest of the chunk then has the effect it had before, and either a byte
     * was consumed or a body state was reached.
     */
    method Step(data: seq<byte>, from: nat) returns (next: nat)
      requires Valid() && !parseState.IsBody() && from < |data|
      modifies this, stackBuf, stackBuf.arr
      ensures Valid() && contentLength == old(contentLength) && isContentLength == old(isContentLength)
      ensures from <= next <= |data|
      ensures next > from || parseState.IsBody()
      ensures Run(Model(), data[next..]) == Run(old(Model()), data[from..])
    {
      ghost var before := Model();
      match parseState {
        case Start => next := StartState(data, from);
        case Method => next := MethodState(data, from);
        case HdrLineAlmostDone => next := HdrLineAlmostDoneState(data, from);
        case HdrLineDone => next := HdrLineDoneState(data, from);
        case HdrLineKey => next := HdrLineKeyState(data, from);
        case HdrLineVal => next := HdrLineValState(data, from);
        case AlmostDone => next := AlmostDoneState(data, from);
        case Done => next := DoneState(data, from);
      }
      LemmaHandlerStep(before, Model(), data, from, next);
    }

    /**
     * Feeds one chunk. The tokenizer ends in the state `Run` computes for
     * the whole chunk; a chunk cut mid-token leaves the state and the
     * accumulator ready for the next call.
     */
    method Parse(data: seq<byte>)
      requires Valid()
      modifies this, stackBuf, stackBuf.arr
      ensures Valid() && contentLength == old(contentLength) && isContentLength == old(isContentLength)
      ensures Model() == Run(old(Model()), data)
    {
      ghost var t0 := Model();
      var idx := 0;
      while idx < |data| && !parseState.IsBody()
        invariant idx <= |data| && Valid()
        invariant contentLength == old(contentLength) && isContentLength == old(isContentLength)
        invariant Run(Model(), data[idx..]) == Run(t0, data)
        decreases |data| - idx, if parseState.IsBody() then 0 else 1
      {
        idx := Step(data, idx);
      }
      if idx < |data| {
        RunBodyAbsorbs(Model(), data[idx..]);
      } else {
        assert data[idx..] == [];
      }
    }
  }

  /**
   * Two tokenizers, one fed `a` and then `b`, the other fed `a + b` in one
   * call, end in the same state having emitted the same events.
   */
  method ParseSplit(a: seq<byte>, b: seq<byte>) returns (split: seq<Event>, whole: seq<Event>, splitState: State, wholeState: State)
    ensures split == whole && splitState == wholeState
    ensures whole == Run(Initial, a + b).trace && wholeState == Run(Initial, a + b).state
  {
    var first := new StompTok();
    first.Parse(a);
    first.Parse(b);
    split, splitState := first.trace, first.parseState;
    var second := new StompTok();
    second.Parse(a + b);
    whole, wholeState := second.trace, second.parseState;
    RunAppend(Initial, a, b);
  }

  /** A handler's result composes with the rest of the chunk. */
  lemma LemmaHandlerStep(before: Tok, after: Tok, data: seq<byte>, from: nat, next: nat)
    requires from < |data| && from <= next <= |data|
    requires next > from ==> after == Run(before, data[from..next])
    requires next == from ==> after == Next(before, data[from]) && after.state.IsBody()
    ensures Run(after, data[next..]) == Run(before, data[from..])
  {
    if next > from {
      assert data[from..next] + data[next..] == data[from..];
      RunAppend(before, data[from..next], data[next..]);
    } else {
      assert [data[from]] + data[from + 1..] == data[from..];
      RunAppend(before, [data[from]], data[from + 1..]);
      assert [data[from]] == [] + [data[from]];
      RunSnoc(before, [], data[from]);
      RunBodyAbsorbs(after, data[from + 1..]);
      RunBodyAbsorbs(after, data[from..]);
    }
  }
}
