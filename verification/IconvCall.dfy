/** The call itself: it moves the caller's cursors and keeps its state in the descriptor. */
module IconvCall {
  import opened Octets
  import opened Iconv
  import opened IconvLoop

  /** The caller's `in`, `inb`, `out` and `outb`. */
  class Buffers {
    const input: Bytes
    const output: array<Byte>
    var inAt: nat
    var inLeft: nat
    var outAt: nat
    var outLeft: nat

    constructor (input: Bytes, output: array<Byte>)
      ensures this.input == input && this.output == output && Valid()
      ensures inAt == 0 && inLeft == |input| && outAt == 0 && outLeft == output.Length
    {
      this.input, this.output := input, output;
      inAt, inLeft, outAt, outLeft := 0, |input|, 0, output.Length;
    }

    predicate Valid()
      reads this
    {
      inAt + inLeft <= |input| && outAt + outLeft <= output.Length
    }

    function Pending(): (s: Bytes)
      requires Valid()
      reads this
      ensures |s| == inLeft
    {
      input[inAt..inAt + inLeft]
    }

    method Take(len: nat)
      requires Valid() && len <= inLeft
      modifies this`inAt, this`inLeft
      ensures Valid() && Pending() == old(Pending())[len..] && inAt + inLeft == old(inAt + inLeft)
    {
      inAt := inAt + len;
      inLeft := inLeft - len;
    }

    method Put(bytes: Bytes)
      requires Valid() && |bytes| <= outLeft
      modifies this`outAt, this`outLeft, output
      ensures Valid() && outAt == old(outAt) + |bytes| && outLeft == old(outLeft) - |bytes|
      ensures output[..] == Wrote(old(output[..]), old(outAt), bytes)
    {
      var i := 0;
      while i < |bytes|
        invariant 0 <= i <= |bytes| && outAt == old(outAt) + i && outLeft == old(outLeft) - i
        invariant inAt == old(inAt) && inLeft == old(inLeft)
        invariant output[..] == Wrote(old(output[..]), old(outAt), bytes[..i])
      {
        output[outAt] := bytes[i];
        outAt := outAt + 1;
        outLeft := outLeft - 1;
        i := i + 1;
      }
      assert bytes[..i] == bytes;
    }
  }

  /** What the output buffer holds after `bytes` were written from `at` on. */
  function Wrote(was: Bytes, at: nat, bytes: Bytes): Bytes
    requires at + |bytes| <= |was|
  {
    was[..at] + bytes + was[at + |bytes|..]
  }

  lemma {:induction false} WroteMore(was: Bytes, at: nat, a: Bytes, b: Bytes)
    requires at + |a| + |b| <= |was|
    ensures Wrote(Wrote(was, at, a), at + |a|, b) == Wrote(was, at, a + b)
  {
  }

  lemma {:induction false} WroteNothing(was: Bytes, at: nat)
    requires at <= |was|
    ensures Wrote(was, at, []) == was
  {
  }

  /** How the loop stands: `done` was written, and the call still to make gives the rest. */
  ghost predicate Going(cv: Conversion, state0: State, s0: Bytes, room0: nat, state: State, s: Bytes, room: nat, done: Bytes, x: nat) {
    ConvOk(cv, state0) && ConvOk(cv, state) && room + |done| == room0
    && Call(cv, state0, s0, room0) == Before(done, x, Call(cv, state, s, room))
  }

  lemma {:induction false} GoingStart(cv: Conversion, state: State, s: Bytes, room: nat)
    requires ConvOk(cv, state)
    ensures Going(cv, state, s, room, state, s, room, [], 0)
  {
    hide Call;
    BeforeNothing(Call(cv, state, s, room));
  }

  lemma {:induction false} GoingSkip(cv: Conversion, state0: State, s0: Bytes, room0: nat, state: State, s: Bytes, room: nat, done: Bytes, x: nat)
    requires Going(cv, state0, s0, room0, state, s, room, done, x) && s != []
    ensures var step := Decode(cv.tables, cv.from, state, s);
            step.Skip? ==> step.len <= |s| && Going(cv, state0, s0, room0, step.state, s[step.len..], room, done, x)
                           && (step.len == 0 ==> state == Zero && step.state != Zero)
  {
    hide Call, Before, Decode;
    Unfold(cv, state, s, room);
    DecodeSteps(cv.tables, cv.from, state, s);
  }

  lemma {:induction false} GoingChar(cv: Conversion, state0: State, s0: Bytes, room0: nat, state: State, s: Bytes, room: nat, done: Bytes, x: nat)
    requires Going(cv, state0, s0, room0, state, s, room, done, x) && s != []
    ensures var step := Decode(cv.tables, cv.from, state, s);
            step.Char? ==>
              var w := Encode(cv.tables, cv.to, step.c);
              0 < step.len <= |s| &&
              if |w.bytes| > room then Call(cv, state0, s0, room0) == Outcome(done, x, s, state, TooBig)
              else Going(cv, state0, s0, room0, state, s[step.len..], room - |w.bytes|, done + w.bytes, x + Lossy(w))
  {
    hide Call, Before, Decode, Encode, Lossy;
    var step := Decode(cv.tables, cv.from, state, s);
    Unfold(cv, state, s, room);
    if step.Char? {
      var w := Encode(cv.tables, cv.to, step.c);
      if |w.bytes| > room {
        BeforeFields(done, x, Outcome([], 0, s, state, TooBig));
        assert done + [] == done;
      } else {
        BeforeTwice(done, x, w.bytes, Lossy(w), Call(cv, state, s[step.len..], room - |w.bytes|));
      }
    }
  }

  lemma {:induction false} GoingStops(cv: Conversion, state0: State, s0: Bytes, room0: nat, state: State, s: Bytes, room: nat, done: Bytes, x: nat)
    requires Going(cv, state0, s0, room0, state, s, room, done, x)
    ensures s == [] ==> Call(cv, state0, s0, room0) == Outcome(done, x, s, state, Done)
    ensures s != [] && Decode(cv.tables, cv.from, state, s) == IlSeq ==>
              Call(cv, state0, s0, room0) == Outcome(done, x, s, state, IllegalSequence)
    ensures s != [] && Decode(cv.tables, cv.from, state, s) == Starved ==>
              Call(cv, state0, s0, room0) == Outcome(done, x, s, state, Incomplete)
  {
    hide Decode, Encode;
    assert done + [] == done;
  }

  /** What the local `type` can be. */
  predicate KindOk(cv: Conversion, kind: Charset, state: State) {
    kind == cv.from || (Sniffs(cv.from) && state.Order? && kind == state.order)
  }

  /** The arm of the switch that `kind` selects, when it does not only look up the state. */
  function Arm(t: Tables, kind: Charset, state: State, s: Bytes): Step
    requires s != []
  {
    if !Sniffs(kind) then DecodeFixed(t, kind, state, s)
    else if kind == Utf32 then Sniff32(s)
    else Sniff16(s, kind == Utf16)
  }

  lemma {:induction false} ArmIsDecode(cv: Conversion, kind: Charset, state: State, s: Bytes)
    requires s != [] && StateOk(cv.from, state) && KindOk(cv, kind, state) && !(Sniffs(kind) && state != Zero)
    ensures Arm(cv.tables, kind, state, s) == Decode(cv.tables, cv.from, state, s)
    ensures Arm(cv.tables, kind, state, s).Skip? ==> kind == cv.from
  {
    hide DecodeFixed, Sniff16, Sniff32;
    OnlyEscapesSkip(cv.tables, kind, state, s);
  }

  class Descriptor {
    const cv: Conversion
    var state: State

    constructor (cv: Conversion)
      requires Target(cv.to)
      ensures this.cv == cv && state == Zero && ConvOk(cv, state)
    {
      this.cv := cv;
      state := Zero;
    }

    /** `iconv`.  The local `type` starts as the source's type in every call and becomes the byte
        order that the state remembers, in a step that takes no input. */
    method Convert(io: Buffers) returns (x: int, stop: Stop)
      requires ConvOk(cv, state) && io.Valid()
      modifies this`state, io, io.output
      ensures io.Valid() && ConvOk(cv, state)
      ensures var o := Call(cv, old(state), old(io.Pending()), old(io.outLeft));
              && stop == o.stop
              && x == (if stop == Done then o.lossy else -1)
              && state == o.state
              && io.Pending() == o.rest
              && io.outAt == old(io.outAt) + |o.bytes|
              && io.output[..] == Wrote(old(io.output[..]), old(io.outAt), o.bytes)
      ensures io.inAt + io.inLeft == old(io.inAt + io.inLeft) && io.outAt + io.outLeft == old(io.outAt + io.outLeft)
    {
      hide Going, ConvOk, Call, Arm, Decode, Encode, Wrote, Lossy, StateOk, Target;
      var n: nat := 0;
      var kind := cv.from;
      ghost var done: Bytes := [];
      ghost var s0, room0, out0, at0 := io.Pending(), io.outLeft, io.output[..], io.outAt;
      GoingStart(cv, state, s0, room0);
      WroteNothing(out0, at0);
      while io.inLeft > 0
        invariant io.Valid() && io.inAt + io.inLeft == old(io.inAt + io.inLeft) && io.outAt + io.outLeft == old(io.outAt + io.outLeft)
        invariant Going(cv, old(state), s0, room0, state, io.Pending(), io.outLeft, done, n)
        invariant io.outAt == at0 + |done| && io.outAt <= |out0| && io.output[..] == Wrote(out0, at0, done)
        invariant KindOk(cv, kind, state)
        decreases io.inLeft, Measure(state), if kind == cv.from then 1 else 0
      {
        ghost var s := io.Pending();
        GoingFacts(cv, old(state), s0, room0, state, s, io.outLeft, done, n);
        if Sniffs(kind) && state != Zero {
          kind := state.order;
          continue;
        }
        ArmIsDecode(cv, kind, state, s);
        var step := Arm(cv.tables, kind, state, io.Pending());
        match step
        case IlSeq =>
          GoingStops(cv, old(state), s0, room0, state, s, io.outLeft, done, n);
          return -1, IllegalSequence;
        case Starved =>
          GoingStops(cv, old(state), s0, room0, state, s, io.outLeft, done, n);
          return -1, Incomplete;
        case Skip(len, state') =>
          GoingSkip(cv, old(state), s0, room0, state, s, io.outLeft, done, n);
          state := state';
          io.Take(len);
        case Char(len, c) =>
          GoingChar(cv, old(state), s0, room0, state, s, io.outLeft, done, n);
          var w := Encode(cv.tables, cv.to, c);
          if |w.bytes| > io.outLeft {
            return -1, TooBig;
          }
          io.Put(w.bytes);
          io.Take(len);
          WroteMore(out0, at0, done, w.bytes);
          done := done + w.bytes;
          n := n + Lossy(w);
      }
      GoingStops(cv, old(state), s0, room0, state, io.Pending(), io.outLeft, done, n);
      return n, Done;
    }
  }

  lemma {:induction false} OnlyEscapesSkip(t: Tables, cs: Charset, state: State, s: Bytes)
    requires s != []
    ensures !Sniffs(cs) && DecodeFixed(t, cs, state, s).Skip? ==> cs == Iso2022Jp
  {
    hide Get16, Get32;
  }

  lemma {:induction false} GoingFacts(cv: Conversion, state0: State, s0: Bytes, room0: nat, state: State, s: Bytes, room: nat, done: Bytes, x: nat)
    requires Going(cv, state0, s0, room0, state, s, room, done, x)
    ensures ConvOk(cv, state0) && ConvOk(cv, state) && Target(cv.to) && StateOk(cv.from, state) && |done| + room == room0
    ensures Sniffs(cv.from) && state != Zero ==> state.Order? && !Sniffs(state.order)
  {
  }
}
