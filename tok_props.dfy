module TokProps {
  import opened Ascii
  import opened TokSpec

  /**
   * What a whole chunk keeps: the declared body length, the events already
   * emitted (new ones are only appended) and the accumulator's capacity.
   */
  lemma {:induction false} RunShape(t: Tok, s: seq<byte>)
    ensures Run(t, s).contentLeft == t.contentLeft
    ensures |t.trace| <= |Run(t, s).trace| && Run(t, s).trace[..|t.trace|] == t.trace
    ensures |t.scratch| <= StackCapacity ==> |Run(t, s).scratch| <= StackCapacity
    decreases |s|
  {
    if |s| > 0 {
      var n := Next(t, s[0]);
      NextShape(t, s[0]);
      RunShape(n, s[1..]);
      assert Run(t, s).trace[..|t.trace|] == Run(t, s).trace[..|n.trace|][..|t.trace|];
    }
  }

  /** Two runs that chain feed their two chunks as one. */
  lemma RunChain(t: Tok, a: seq<byte>, t1: Tok, b: seq<byte>, t2: Tok)
    requires Run(t, a) == t1 && Run(t1, b) == t2
    ensures Run(t, a + b) == t2
  {
    RunAppend(t, a, b);
  }

  /** Once in a body state, further bytes change nothing the tokenizer models. */
  lemma {:induction false} RunBodyAbsorbs(t: Tok, s: seq<byte>)
    requires t.state.IsBody()
    ensures Run(t, s) == t
    decreases |s|
  {
    if |s| > 0 {
      RunBodyAbsorbs(Next(t, s[0]), s[1..]);
    }
  }
}

module TokFrames {
  import opened Ascii
  import opened TokSpec
  import opened TokProps

  /** Bytes the start state skips between frames (heart-beats, padding). */
  predicate IsPadding(b: byte) {
    b == NL || b == NR || b == EOF
  }

  /** The states that accumulate a token, and the bytes each accumulates. */
  predicate IsTokenState(s: State) {
    s == Method || s == HdrLineKey || s == HdrLineVal
  }

  predicate TokenByte(s: State, b: byte) {
    match s
    case Method => IsAsciiUpper(b)
    case HdrLineKey => IsPrintNoSpace(b) && b != D2
    case HdrLineVal => IsPrint(b)
    case _ => false
  }

  /** What the accumulator keeps of `x + s`: no more than its capacity. */
  function Kept(x: seq<byte>, s: seq<byte>): seq<byte> {
    if |x| + |s| <= StackCapacity then x + s else (x + s)[..StackCapacity]
  }

  /** One `too_big` error per byte that did not fit. */
  function Overflow(x: seq<byte>, s: seq<byte>): seq<Event> {
    if |x| + |s| <= StackCapacity then [] else seq(|x| + |s| - StackCapacity, _ => Error(TooBig))
  }

  /**
   * A run of token bytes in a token state is accumulated while there is
   * room; each byte beyond the capacity is dropped with one `too_big`
   * error, and the state never changes.
   */
  lemma {:induction false} TokenRun(t: Tok, s: seq<byte>)
    requires IsTokenState(t.state) && |t.scratch| <= StackCapacity
    requires forall i :: 0 <= i < |s| ==> TokenByte(t.state, s[i])
    ensures Run(t, s) == t.(scratch := Kept(t.scratch, s), trace := t.trace + Overflow(t.scratch, s))
    decreases |s|
  {
    if |s| == 0 {
      assert t.scratch + s == t.scratch;
      assert t.trace + [] == t.trace;
    } else {
      var s', b := s[..|s| - 1], s[|s| - 1];
      assert s == s' + [b];
      TokenRun(t, s');
      RunSnoc(t, s', b);
      var x := t.scratch;
      if |x| + |s| <= StackCapacity {
        assert Kept(x, s) == Kept(x, s') + [b];
        assert Overflow(x, s') == [];
      } else if |x| + |s'| <= StackCapacity {
        assert |Kept(x, s')| == StackCapacity;
        assert Kept(x, s) == Kept(x, s');
        assert Overflow(x, s) == [Error(TooBig)];
        assert Overflow(x, s') == [];
      } else {
        assert Kept(x, s) == Kept(x, s');
        assert Overflow(x, s) == Overflow(x, s') + [Error(TooBig)];
      }
    }
  }

  /** The start state skips any run of line ends and NULs without an event. */
  lemma {:induction false} PaddingSkipped(t: Tok, s: seq<byte>)
    requires t.state == Start
    requires forall i :: 0 <= i < |s| ==> IsPadding(s[i])
    ensures Run(t, s) == t
    decreases |s|
  {
    if |s| > 0 {
      PaddingSkipped(Next(t, s[0]), s[1..]);
    }
  }

  /** After padding, a byte that cannot start a method is one `inval_reqline` and is dropped. */
  lemma GarbageRejected(t: Tok, s: seq<byte>, b: byte)
    requires t.state == Start
    requires forall i :: 0 <= i < |s| ==> IsPadding(s[i])
    requires !IsPadding(b) && !IsAsciiUpper(b)
    ensures Run(t, s + [b]) == t.(trace := t.trace + [Error(InvalReqline)])
  {
    RunSnoc(t, s, b);
    PaddingSkipped(t, s);
  }

  /** After padding, an upper-case byte starts a frame and a method name with it. */
  lemma FrameStarted(t: Tok, s: seq<byte>, b: byte)
    requires t.state == Start
    requires forall i :: 0 <= i < |s| ==> IsPadding(s[i])
    requires IsAsciiUpper(b)
    ensures Run(t, s + [b]) == t.(state := Method, scratch := [b], trace := t.trace + [FrameStart])
  {
    RunSnoc(t, s, b);
    PaddingSkipped(t, s);
  }

  /** The two line endings the tokenizer accepts. */
  datatype Eol = LF | CRLF

  function EolBytes(eol: Eol): seq<byte> {
    match eol
    case LF => [NL]
    case CRLF => [NR, NL]
  }

  datatype Header = Header(key: seq<byte>, value: seq<byte>)

  datatype Frame = Frame(name: seq<byte>, headers: seq<Header>)

  predicate ValidMethod(m: seq<byte>) {
    1 <= |m| <= StackCapacity && forall i :: 0 <= i < |m| ==> IsAsciiUpper(m[i])
  }

  predicate ValidHeader(h: Header) {
    && 1 <= |h.key| <= StackCapacity
    && (forall i :: 0 <= i < |h.key| ==> IsPrintNoSpace(h.key[i]) && h.key[i] != D2)
    && |h.value| <= StackCapacity
    && (forall i :: 0 <= i < |h.value| ==> IsPrint(h.value[i]))
  }

  predicate ValidFrame(f: Frame) {
    ValidMethod(f.name) && ValidHeaders(f.headers)
  }

  /** The wire form of a header line, of a header block and of a frame without a body. */
  function EncodeHeader(h: Header, eol: Eol): seq<byte> {
    h.key + [D2] + h.value + EolBytes(eol)
  }

  function EncodeHeaders(hs: seq<Header>, eol: Eol): seq<byte>
    decreases |hs|
  {
    if hs == [] then [] else EncodeHeader(hs[0], eol) + EncodeHeaders(hs[1..], eol)
  }

  function EncodeFrame(f: Frame, eol: Eol): seq<byte> {
    f.name + EolBytes(eol) + EncodeHeaders(f.headers, eol) + EolBytes(eol) + [EOF]
  }

  /** The events a frame is reported as. */
  function HeaderEvents(hs: seq<Header>): seq<Event>
    decreases |hs|
  {
    if hs == [] then [] else [HeaderKey(hs[0].key), HeaderVal(hs[0].value)] + HeaderEvents(hs[1..])
  }

  function FrameEvents(f: Frame): seq<Event> {
    [FrameStart, MethodName(f.name)] + HeaderEvents(f.headers) + [FrameEnd]
  }

  /** `k` headers are reported as `k` key/value pairs, in order. */
  lemma {:induction false} HeaderEventsShape(hs: seq<Header>)
    ensures |HeaderEvents(hs)| == 2 * |hs|
    ensures forall i :: 0 <= i < |hs| ==>
              HeaderEvents(hs)[2 * i] == HeaderKey(hs[i].key) &&
              HeaderEvents(hs)[2 * i + 1] == HeaderVal(hs[i].value)
    decreases |hs|
  {
    if hs != [] {
      HeaderEventsShape(hs[1..]);
      forall i | 1 <= i < |hs|
        ensures HeaderEvents(hs)[2 * i] == HeaderKey(hs[i].key)
        ensures HeaderEvents(hs)[2 * i + 1] == HeaderVal(hs[i].value)
      {
        assert hs[1..][i - 1] == hs[i];
        assert HeaderEvents(hs)[2 * i] == HeaderEvents(hs[1..])[2 * (i - 1)];
        assert HeaderEvents(hs)[2 * i + 1] == HeaderEvents(hs[1..])[2 * (i - 1) + 1];
      }
    }
  }

  /** A line end in a token state that pops: `\n` goes to `nl`, `\r\n` through `cr` to `nl`. */
  lemma LineEnd(t: Tok, eol: Eol)
    requires t.state == Method || t.state == HdrLineVal
    ensures Run(t, EolBytes(eol)) ==
              t.(state := HdrLineDone, scratch := [],
                 trace := t.trace + [if t.state == Method then MethodName(t.scratch) else HeaderVal(t.scratch)])
  {
    match eol
    case LF =>
      RunSnoc(t, [], NL);
      assert [] + [NL] == [NL];
    case CRLF =>
      RunSnoc(t, [], NR);
      assert [] + [NR] == [NR];
      RunSnoc(t, [NR], NL);
      assert [NR] + [NL] == [NR, NL];
  }

  /** A first byte that opens a token, then a run that fits: the token state holds all of it. */
  lemma TokenOpened(t: Tok, t1: Tok, x: seq<byte>, s: seq<byte>)
    requires |s| >= 1 && Run(t, s[..1]) == t1
    requires IsTokenState(t1.state) && t1.scratch == x + s[..1] && |x| + |s| <= StackCapacity
    requires forall i :: 1 <= i < |s| ==> TokenByte(t1.state, s[i])
    ensures Run(t, s) == t1.(scratch := x + s)
  {
    assert Run(t1, s[1..]) == t1.(scratch := x + s) by {
      TokenRun(t1, s[1..]);
      assert Kept(x + s[..1], s[1..]) == x + s;
      assert Overflow(x + s[..1], s[1..]) == [];
      assert t1.trace + [] == t1.trace;
    }
    assert s[..1] + s[1..] == s;
    RunChain(t, s[..1], t1, s[1..], t1.(scratch := x + s));
  }

  /**
   * Any run of upper-case bytes from the start state starts one frame; the
   * method keeps its first 32 bytes and every further byte is one `too_big`.
   */
  lemma MethodAccumulated(t: Tok, m: seq<byte>)
    requires t.state == Start && |m| >= 1
    requires forall i :: 0 <= i < |m| ==> IsAsciiUpper(m[i])
    ensures Run(t, m) ==
              t.(state := Method, scratch := Kept([], m), trace := t.trace + [FrameStart] + Overflow([], m))
  {
    var t1 := t.(state := Method, scratch := [m[0]], trace := t.trace + [FrameStart]);
    assert Run(t, m[..1]) == t1 by {
      FrameStarted(t, [], m[0]);
      assert [] + [m[0]] == m[..1];
    }
    var t2 := t1.(scratch := Kept([m[0]], m[1..]), trace := t1.trace + Overflow([m[0]], m[1..]));
    assert Run(t1, m[1..]) == t2 by {
      TokenRun(t1, m[1..]);
    }
    assert [m[0]] + m[1..] == [] + m;
    assert m[..1] + m[1..] == m;
    RunChain(t, m[..1], t1, m[1..], t2);
  }

  /** A method name that fits reports nothing yet and is accumulated whole. */
  lemma MethodToken(t: Tok, m: seq<byte>)
    requires t.state == Start && ValidMethod(m)
    ensures Run(t, m) == t.(state := Method, scratch := m, trace := t.trace + [FrameStart])
  {
    MethodAccumulated(t, m);
    assert Kept([], m) == m;
    assert t.trace + [FrameStart] + Overflow([], m) == t.trace + [FrameStart];
  }

  /**
   * One byte over the capacity: the method holds its first 32 bytes and
   * exactly one `too_big` is reported; nothing is discarded from the kept part.
   */
  lemma MethodCapacityBoundary(t: Tok, m: seq<byte>)
    requires t.state == Start && |m| == StackCapacity + 1
    requires forall i :: 0 <= i < |m| ==> IsAsciiUpper(m[i])
    ensures Run(t, m) ==
              t.(state := Method, scratch := m[..StackCapacity], trace := t.trace + [FrameStart, Error(TooBig)])
  {
    MethodAccumulated(t, m);
    assert [] + m == m;
    assert Overflow([], m) == [Error(TooBig)];
    assert t.trace + [FrameStart] + [Error(TooBig)] == t.trace + [FrameStart, Error(TooBig)];
  }

  /** A method line from the start state: the frame starts and the method name is reported. */
  lemma MethodLine(t: Tok, m: seq<byte>, eol: Eol)
    requires t.state == Start && ValidMethod(m)
    ensures Run(t, m + EolBytes(eol)) ==
              t.(state := HdrLineDone, scratch := [], trace := t.trace + [FrameStart, MethodName(m)])
  {
    var t1 := t.(state := Method, scratch := m, trace := t.trace + [FrameStart]);
    var t2 := t.(state := HdrLineDone, scratch := [], trace := t.trace + [FrameStart, MethodName(m)]);
    assert Run(t, m) == t1 by {
      MethodToken(t, m);
    }
    assert Run(t1, EolBytes(eol)) == t2 by {
      LineEnd(t1, eol);
      assert t.trace + [FrameStart] + [MethodName(m)] == t.trace + [FrameStart, MethodName(m)];
    }
    RunChain(t, m, t1, EolBytes(eol), t2);
  }

  /**
   * Key bytes at the start of a line are accumulated after whatever the
   * accumulator already holds, in the key state.
   */
  lemma KeyToken(t: Tok, k: seq<byte>)
    requires t.state == HdrLineDone
    requires 1 <= |k| && |t.scratch| + |k| <= StackCapacity
    requires forall i :: 0 <= i < |k| ==> IsPrintNoSpace(k[i]) && k[i] != D2
    ensures Run(t, k) == t.(state := HdrLineKey, scratch := t.scratch + k)
  {
    var t1 := t.(state := HdrLineKey, scratch := t.scratch + [k[0]]);
    assert Run(t, k[..1]) == t1 by {
      RunSnoc(t, [], k[0]);
      assert [] + [k[0]] == k[..1];
    }
    TokenOpened(t, t1, t.scratch, k);
  }

  /** A key and its colon report the key and move to the value state. */
  lemma KeyColon(t: Tok, k: seq<byte>)
    requires t.state == HdrLineDone && t.scratch == []
    requires 1 <= |k| <= StackCapacity
    requires forall i :: 0 <= i < |k| ==> IsPrintNoSpace(k[i]) && k[i] != D2
    ensures Run(t, k + [D2]) == t.(state := HdrLineVal, trace := t.trace + [HeaderKey(k)])
  {
    var t1 := t.(state := HdrLineKey, scratch := k);
    assert Run(t, k) == t1 by {
      KeyToken(t, k);
      assert [] + k == k;
    }
    RunSnoc(t, k, D2);
  }

  /** A value and its line end report the value and return to the start of a line. */
  lemma ValueLine(t: Tok, v: seq<byte>, eol: Eol)
    requires t.state == HdrLineVal && t.scratch == []
    requires |v| <= StackCapacity && forall i :: 0 <= i < |v| ==> IsPrint(v[i])
    ensures Run(t, v + EolBytes(eol)) == t.(state := HdrLineDone, trace := t.trace + [HeaderVal(v)])
  {
    var t1 := t.(scratch := v);
    assert Run(t, v) == t1 by {
      TokenRun(t, v);
      assert Kept([], v) == v;
      assert Overflow([], v) == [];
      assert t.trace + [] == t.trace;
    }
    var t2 := t.(state := HdrLineDone, trace := t.trace + [HeaderVal(v)]);
    assert Run(t1, EolBytes(eol)) == t2 by {
      LineEnd(t1, eol);
    }
    RunChain(t, v, t1, EolBytes(eol), t2);
  }

  /** A header line at the start of a line: its key and then its value are reported. */
  lemma HeaderLine(t: Tok, h: Header, eol: Eol)
    requires t.state == HdrLineDone && t.scratch == [] && ValidHeader(h)
    ensures Run(t, EncodeHeader(h, eol)) ==
              t.(trace := t.trace + [HeaderKey(h.key), HeaderVal(h.value)])
  {
    var k, v := h.key, h.value;
    var t1 := t.(state := HdrLineVal, trace := t.trace + [HeaderKey(k)]);
    var t2 := t.(trace := t.trace + [HeaderKey(k), HeaderVal(v)]);
    assert Run(t, k + [D2]) == t1 by {
      KeyColon(t, k);
    }
    assert Run(t1, v + EolBytes(eol)) == t2 by {
      ValueLine(t1, v, eol);
      assert t.trace + [HeaderKey(k)] + [HeaderVal(v)] == t.trace + [HeaderKey(k), HeaderVal(v)];
    }
    assert EncodeHeader(h, eol) == (k + [D2]) + (v + EolBytes(eol));
    RunChain(t, k + [D2], t1, v + EolBytes(eol), t2);
  }

  predicate ValidHeaders(hs: seq<Header>) {
    forall i :: 0 <= i < |hs| ==> ValidHeader(hs[i])
  }

  /** A header block reports every header, in order. */
  lemma {:induction false} HeaderLines(t: Tok, hs: seq<Header>, eol: Eol)
    requires t.state == HdrLineDone && t.scratch == [] && ValidHeaders(hs)
    ensures Run(t, EncodeHeaders(hs, eol)) == t.(trace := t.trace + HeaderEvents(hs))
    decreases |hs|
  {
    if hs == [] {
      assert t.trace + [] == t.trace;
    } else {
      var pair := [HeaderKey(hs[0].key), HeaderVal(hs[0].value)];
      var t1 := t.(trace := t.trace + pair);
      HeaderLine(t, hs[0], eol);
      HeaderLines(t1, hs[1..], eol);
      TraceChain(t, EncodeHeader(hs[0], eol), EncodeHeaders(hs[1..], eol), pair, HeaderEvents(hs[1..]));
    }
  }

  /** Two runs that each only append events compose into one that appends both. */
  lemma TraceChain(t: Tok, x: seq<byte>, y: seq<byte>, p: seq<Event>, q: seq<Event>)
    requires Run(t, x) == t.(trace := t.trace + p)
    requires Run(t.(trace := t.trace + p), y) == t.(trace := t.trace + p + q)
    ensures Run(t, x + y) == t.(trace := t.trace + (p + q))
  {
    RunAppend(t, x, y);
    assert t.trace + p + q == t.trace + (p + q);
  }

  /**
   * A line of key bytes ended without a colon goes back to the start of a
   * line without handing the key out: its bytes stay in the accumulator and
   * become the front of the next key.
   */
  lemma KeyWithoutColonLeaks(t: Tok, k: seq<byte>, k2: seq<byte>)
    requires t.state == HdrLineDone && t.scratch == []
    requires 1 <= |k| && 1 <= |k2| && |k| + |k2| <= StackCapacity
    requires forall i :: 0 <= i < |k| ==> IsPrintNoSpace(k[i]) && k[i] != D2
    requires forall i :: 0 <= i < |k2| ==> IsPrintNoSpace(k2[i]) && k2[i] != D2
    ensures Run(t, k + [NL]) == t.(scratch := k)
    ensures Run(t, k + [NL] + k2 + [D2]) == t.(state := HdrLineVal, trace := t.trace + [HeaderKey(k + k2)])
  {
    var t1 := t.(scratch := k);
    assert Run(t, k + [NL]) == t1 by {
      KeyToken(t, k);
      assert [] + k == k;
      RunSnoc(t, k, NL);
    }
    var t2 := t.(state := HdrLineKey, scratch := k + k2);
    assert Run(t1, k2) == t2 by {
      KeyToken(t1, k2);
    }
    assert Run(t, k + [NL] + k2) == t2 by {
      RunChain(t, k + [NL], t1, k2, t2);
    }
    RunSnoc(t, k + [NL] + k2, D2);
  }

  /**
   * After the header block, a byte other than NUL picks the body reader by
   * the declared length; the tokenizer then absorbs every further byte.
   */
  lemma DoneEntersBody(t: Tok, b: byte, rest: seq<byte>)
    requires t.state == Done && b != EOF
    ensures Run(t, [b] + rest) == t.(state := if t.contentLeft > 0 then BodyRead else BodyReadNoLength)
  {
    var t1 := t.(state := if t.contentLeft > 0 then BodyRead else BodyReadNoLength);
    RunSnoc(t, [], b);
    assert [] + [b] == [b];
    RunBodyAbsorbs(t1, rest);
    RunChain(t, [b], t1, rest, t1);
  }

  /**
   * The declared length is never assigned, so from a fresh tokenizer the
   * length-delimited body reader is never chosen.
   */
  lemma {:induction false} BodyReadUnreachable(t: Tok, s: seq<byte>)
    requires t.contentLeft == 0 && t.state != BodyRead
    ensures Run(t, s).state != BodyRead
    decreases |s|
  {
    if |s| > 0 {
      NextShape(t, s[0]);
      BodyReadUnreachable(Next(t, s[0]), s[1..]);
    }
  }

  /**
   * A method line, a header block and the blank line bring a tokenizer in
   * the start state to the end of the header block, reporting the method
   * and every header in order.
   */
  lemma FrameHead(t: Tok, f: Frame, eol: Eol)
    requires t.state == Start && ValidFrame(f)
    ensures Run(t, f.name + EolBytes(eol) + EncodeHeaders(f.headers, eol) + EolBytes(eol)) ==
              t.(state := Done, scratch := [],
                 trace := t.trace + [FrameStart, MethodName(f.name)] + HeaderEvents(f.headers))
  {
    var line := f.name + EolBytes(eol);
    var hdrs := EncodeHeaders(f.headers, eol);
    var t1 := t.(state := HdrLineDone, scratch := [], trace := t.trace + [FrameStart, MethodName(f.name)]);
    var t2 := t1.(trace := t1.trace + HeaderEvents(f.headers));
    assert Run(t, line) == t1 by {
      MethodLine(t, f.name, eol);
    }
    assert Run(t1, hdrs) == t2 by {
      HeaderLines(t1, f.headers, eol);
    }
    assert Run(t, line + hdrs) == t2 by {
      RunChain(t, line, t1, hdrs, t2);
    }
    assert Run(t2, EolBytes(eol)) == t2.(state := Done) by {
      match eol
      case LF =>
        RunSnoc(t2, [], NL);
        assert [] + [NL] == [NL];
      case CRLF =>
        RunSnoc(t2, [], NR);
        assert [] + [NR] == [NR];
        RunSnoc(t2, [NR], NL);
        assert [NR] + [NL] == [NR, NL];
    }
    RunChain(t, line + hdrs, t2, EolBytes(eol), t2.(state := Done));
  }

  /** A well-formed frame without a body, fed in the start state, is reported as its events. */
  lemma FrameRoundTrip(t: Tok, f: Frame, eol: Eol)
    requires t.state == Start && ValidFrame(f)
    ensures Run(t, EncodeFrame(f, eol)) == t.(scratch := [], trace := t.trace + FrameEvents(f))
  {
    var head := f.name + EolBytes(eol) + EncodeHeaders(f.headers, eol) + EolBytes(eol);
    var t1 := t.(state := Done, scratch := [], trace := t.trace + [FrameStart, MethodName(f.name)] + HeaderEvents(f.headers));
    var t2 := t.(scratch := [], trace := t.trace + FrameEvents(f));
    assert Run(t, head) == t1 by {
      FrameHead(t, f, eol);
    }
    assert Run(t1, [EOF]) == t2 by {
      RunSnoc(t1, [], EOF);
      assert [] + [EOF] == [EOF];
      assert t1.trace + [FrameEnd] == t.trace + FrameEvents(f);
    }
    RunChain(t, head, t1, [EOF], t2);
  }

  function EncodeFrames(fs: seq<Frame>, eol: Eol): seq<byte>
    decreases |fs|
  {
    if fs == [] then [] else EncodeFrame(fs[0], eol) + EncodeFrames(fs[1..], eol)
  }

  function FramesEvents(fs: seq<Frame>): seq<Event>
    decreases |fs|
  {
    if fs == [] then [] else FrameEvents(fs[0]) + FramesEvents(fs[1..])
  }

  predicate ValidFrames(fs: seq<Frame>) {
    forall i :: 0 <= i < |fs| ==> ValidFrame(fs[i])
  }

  /** Frames back to back in one chunk are reported one after the other. */
  lemma {:induction false} FramesRoundTrip(t: Tok, fs: seq<Frame>, eol: Eol)
    requires t.state == Start && ValidFrames(fs)
    ensures Run(t, EncodeFrames(fs, eol)).state == Start
    ensures Run(t, EncodeFrames(fs, eol)).trace == t.trace + FramesEvents(fs)
    decreases |fs|
  {
    if fs == [] {
      assert t.trace + [] == t.trace;
    } else {
      var t1 := t.(scratch := [], trace := t.trace + FrameEvents(fs[0]));
      FrameRoundTrip(t, fs[0], eol);
      FramesRoundTrip(t1, fs[1..], eol);
      FrameChain(t, EncodeFrame(fs[0], eol), EncodeFrames(fs[1..], eol), FrameEvents(fs[0]), FramesEvents(fs[1..]));
    }
  }

  /** A frame-sized run followed by a run that ends in the start state compose into one. */
  lemma FrameChain(t: Tok, x: seq<byte>, y: seq<byte>, p: seq<Event>, q: seq<Event>)
    requires Run(t, x) == t.(scratch := [], trace := t.trace + p)
    requires Run(t.(scratch := [], trace := t.trace + p), y).state == Start
    requires Run(t.(scratch := [], trace := t.trace + p), y).trace == t.trace + p + q
    ensures Run(t, x + y).state == Start && Run(t, x + y).trace == t.trace + (p + q)
  {
    RunAppend(t, x, y);
    assert t.trace + p + q == t.trace + (p + q);
  }

  /** The words of the tokenizer's own demonstration chunk, as bytes. */
  const Connnect: seq<byte> := [67, 79, 78, 78, 78, 69, 67, 84]
  const My: seq<byte> := [109, 121]
  const Friend: seq<byte> := [102, 114, 105, 101, 110, 100]
  const Very: seq<byte> := [118, 101, 114, 121]
  const Funny: seq<byte> := [102, 117, 110, 110, 121]

  const DemoFrame: Frame := Frame(Connnect, [Header(My, Friend), Header(Very, Funny)])

  const DemoChunkBytes: seq<byte> := Connnect + [NL] + My + [D2] + Friend + [NL] + Very + [D2] + Funny + [NL] + [NL]

  lemma DemoChunkIsFrameHead()
    ensures DemoChunkBytes ==
              DemoFrame.name + EolBytes(LF) + EncodeHeaders(DemoFrame.headers, LF) + EolBytes(LF)
  {
    var h1, h2 := DemoFrame.headers[0], DemoFrame.headers[1];
    assert DemoFrame.headers[1..] == [h2];
    assert EncodeHeaders([h2], LF) == EncodeHeader(h2, LF) + [];
    assert EncodeHeaders(DemoFrame.headers, LF) == EncodeHeader(h1, LF) + EncodeHeaders([h2], LF);
  }

  lemma DemoEventsListed()
    ensures [FrameStart, MethodName(DemoFrame.name)] + HeaderEvents(DemoFrame.headers) ==
              [FrameStart, MethodName(Connnect), HeaderKey(My), HeaderVal(Friend), HeaderKey(Very), HeaderVal(Funny)]
  {
    var h1, h2 := DemoFrame.headers[0], DemoFrame.headers[1];
    assert DemoFrame.headers[1..] == [h2];
    assert HeaderEvents([h2]) == [HeaderKey(h2.key), HeaderVal(h2.value)] + [];
    assert HeaderEvents(DemoFrame.headers) == [HeaderKey(h1.key), HeaderVal(h1.value)] + HeaderEvents([h2]);
  }

  /**
   * The chunk the demonstration feeds: a method, two headers and the blank
   * line, without the terminating NUL. The frame is reported up to its
   * last header and the tokenizer waits in `Done` for the NUL.
   */
  lemma DemoChunk()
    ensures Run(Initial, DemoChunkBytes) ==
              Tok(Done, [], 0, [FrameStart, MethodName(Connnect),
                                HeaderKey(My), HeaderVal(Friend), HeaderKey(Very), HeaderVal(Funny)])
  {
    DemoChunkIsFrameHead();
    DemoEventsListed();
    assert ValidFrame(DemoFrame);
    FrameHead(Initial, DemoFrame, LF);
  }
}
