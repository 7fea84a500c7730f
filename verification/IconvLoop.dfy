/**
 * The main loop of iconv over a conversion descriptor: it stops anywhere between characters and
 * can be resumed, so that neither the sizes of the output buffers nor the cutting of the input
 * change what is written in all.
 */
module IconvLoop {
  import opened Octets
  import opened IconvRank
  import opened Iconv

  datatype Conversion = Conversion(tables: Tables, from: Charset, to: Charset)

  datatype Stop = Done | IllegalSequence | Incomplete | TooBig

  /** What was written, how many characters were replaced, what is left to read, and why it stopped. */
  datatype Outcome = Outcome(bytes: Bytes, lossy: nat, rest: Bytes, state: State, stop: Stop)

  ghost predicate ConvOk(cv: Conversion, state: State) {
    Target(cv.to) && StateOk(cv.from, state)
  }

  // ----- the whole conversion -----

  function Before(bytes: Bytes, lossy: nat, o: Outcome): Outcome {
    o.(bytes := bytes + o.bytes, lossy := lossy + o.lossy)
  }

  function Measure(state: State): nat {
    if state == Zero then 1 else 0
  }

  /** Conversion with all the room it needs. */
  function Transcode(cv: Conversion, state: State, s: Bytes): (o: Outcome)
    requires ConvOk(cv, state)
    ensures ConvOk(cv, o.state) && o.stop != TooBig
    decreases |s|, Measure(state)
  {
    if s == [] then Outcome([], 0, [], state, Done)
    else
      DecodeSteps(cv.tables, cv.from, state, s);
      match Decode(cv.tables, cv.from, state, s)
      case IlSeq => Outcome([], 0, s, state, IllegalSequence)
      case Starved => Outcome([], 0, s, state, Incomplete)
      case Skip(len, state') => Transcode(cv, state', s[len..])
      case Char(len, c) =>
        var w := Encode(cv.tables, cv.to, c);
        Before(w.bytes, Lossy(w), Transcode(cv, state, s[len..]))
  }

  /** One call with `room` bytes of output. */
  function Call(cv: Conversion, state: State, s: Bytes, room: nat): (o: Outcome)
    requires ConvOk(cv, state)
    ensures ConvOk(cv, o.state) && |o.bytes| <= room
    decreases |s|, Measure(state)
  {
    if s == [] then Outcome([], 0, [], state, Done)
    else
      DecodeSteps(cv.tables, cv.from, state, s);
      match Decode(cv.tables, cv.from, state, s)
      case IlSeq => Outcome([], 0, s, state, IllegalSequence)
      case Starved => Outcome([], 0, s, state, Incomplete)
      case Skip(len, state') => Call(cv, state', s[len..], room)
      case Char(len, c) =>
        var w := Encode(cv.tables, cv.to, c);
        if |w.bytes| > room then Outcome([], 0, s, state, TooBig)
        else Before(w.bytes, Lossy(w), Call(cv, state, s[len..], room - |w.bytes|))
  }

  // ----- resuming -----

  lemma {:induction false} BeforeTwice(a: Bytes, m: nat, b: Bytes, n: nat, o: Outcome)
    ensures Before(a, m, Before(b, n, o)) == Before(a + b, m + n, o)
  {
    assert a + (b + o.bytes) == (a + b) + o.bytes;
  }

  lemma {:induction false} BeforeNothing(o: Outcome)
    ensures Before([], 0, o) == o
  {
    assert [] + o.bytes == o.bytes;
  }

  function Lossy(w: Written): nat {
    if w.lossy then 1 else 0
  }

  lemma {:induction false} Unfold(cv: Conversion, state: State, s: Bytes, room: nat)
    requires ConvOk(cv, state) && s != []
    ensures match Decode(cv.tables, cv.from, state, s) {
              case IlSeq => Transcode(cv, state, s) == Call(cv, state, s, room) && Call(cv, state, s, room).stop != TooBig
              case Starved => Transcode(cv, state, s) == Call(cv, state, s, room) && Call(cv, state, s, room).stop != TooBig
              case Skip(len, state') =>
                len <= |s| && ConvOk(cv, state') && Transcode(cv, state, s) == Transcode(cv, state', s[len..])
                && Call(cv, state, s, room) == Call(cv, state', s[len..], room)
                && (len == 0 ==> Measure(state') < Measure(state))
              case Char(len, c) =>
                var w := Encode(cv.tables, cv.to, c);
                Target(cv.to) && 0 < len <= |s| && Transcode(cv, state, s) == Before(w.bytes, Lossy(w), Transcode(cv, state, s[len..]))
                && Call(cv, state, s, room) ==
                   if |w.bytes| > room then Outcome([], 0, s, state, TooBig)
                   else Before(w.bytes, Lossy(w), Call(cv, state, s[len..], room - |w.bytes|))
            }
  {
    hide Decode, Encode, Before;
    DecodeSteps(cv.tables, cv.from, state, s);
  }

  /** A call that stops for want of room leaves exactly the rest of the conversion to do. */
  lemma {:induction false} CallResumes(cv: Conversion, state: State, s: Bytes, room: nat)
    requires ConvOk(cv, state)
    ensures var o := Call(cv, state, s, room);
            Transcode(cv, state, s) == if o.stop == TooBig then Before(o.bytes, o.lossy, Transcode(cv, o.state, o.rest)) else o
    decreases |s|, Measure(state)
  {
    if s != [] {
      CallResumesStep(cv, state, s, room);
    }
  }

  lemma {:induction false} CallResumesStep(cv: Conversion, state: State, s: Bytes, room: nat)
    requires ConvOk(cv, state) && s != []
    ensures var o := Call(cv, state, s, room);
            Transcode(cv, state, s) == if o.stop == TooBig then Before(o.bytes, o.lossy, Transcode(cv, o.state, o.rest)) else o
    decreases |s|, Measure(state), 0
  {
    hide Decode, Encode, Before, Transcode, Call, Lossy, Measure, StateOk, Target;
    Unfold(cv, state, s, room);
    match Decode(cv.tables, cv.from, state, s)
    case IlSeq =>
    case Starved =>
    case Skip(len, state') => CallResumes(cv, state', s[len..], room);
    case Char(len, c) =>
      var w := Encode(cv.tables, cv.to, c);
      if |w.bytes| > room {
        BeforeNothing(Transcode(cv, state, s));
      } else {
        CallResumes(cv, state, s[len..], room - |w.bytes|);
        var o := Call(cv, state, s[len..], room - |w.bytes|);
        BeforeFields(w.bytes, Lossy(w), o);
        BeforeTwice(w.bytes, Lossy(w), o.bytes, o.lossy, Transcode(cv, o.state, o.rest));
      }
  }

  lemma {:induction false} BeforeFields(a: Bytes, m: nat, o: Outcome)
    ensures var p := Before(a, m, o);
            p.bytes == a + o.bytes && p.lossy == m + o.lossy && p.rest == o.rest && p.state == o.state && p.stop == o.stop
  {
  }

  /** Calls with the given rooms, one after the other, for as long as the output was too small. */
  function Schedule(cv: Conversion, state: State, s: Bytes, rooms: seq<nat>): (o: Outcome)
    requires ConvOk(cv, state)
    ensures ConvOk(cv, o.state)
    decreases |rooms|
  {
    if rooms == [] then Outcome([], 0, s, state, TooBig)
    else
      var o := Call(cv, state, s, rooms[0]);
      if o.stop == TooBig then Before(o.bytes, o.lossy, Schedule(cv, o.state, o.rest, rooms[1..])) else o
  }

  /** Whatever the rooms: what the calls wrote is followed by what one call would still write;
      and once they stop for another reason, they did what one call with enough room does. */
  lemma {:induction false} AnySchedule(cv: Conversion, state: State, s: Bytes, rooms: seq<nat>)
    requires ConvOk(cv, state)
    ensures var o := Schedule(cv, state, s, rooms);
            Transcode(cv, state, s) == if o.stop == TooBig then Before(o.bytes, o.lossy, Transcode(cv, o.state, o.rest)) else o
    decreases |rooms|
  {
    hide Transcode, Call, Before;
    if rooms == [] {
      BeforeNothing(Transcode(cv, state, s));
    } else {
      CallResumes(cv, state, s, rooms[0]);
      var o := Call(cv, state, s, rooms[0]);
      if o.stop == TooBig {
        AnySchedule(cv, o.state, o.rest, rooms[1..]);
        var p := Schedule(cv, o.state, o.rest, rooms[1..]);
        BeforeFields(o.bytes, o.lossy, p);
        BeforeTwice(o.bytes, o.lossy, p.bytes, p.lossy, Transcode(cv, p.state, p.rest));
      }
    }
  }

  /** A call takes a front part of the input. */
  lemma {:induction false} CallTakesFront(cv: Conversion, state: State, s: Bytes, room: nat)
    requires ConvOk(cv, state)
    ensures var rest := Call(cv, state, s, room).rest;
            |rest| <= |s| && rest == s[|s| - |rest|..]
    decreases |s|, Measure(state)
  {
    if s != [] {
      CallTakesFrontStep(cv, state, s, room);
    }
  }

  lemma {:induction false} CallTakesFrontStep(cv: Conversion, state: State, s: Bytes, room: nat)
    requires ConvOk(cv, state) && s != []
    ensures var rest := Call(cv, state, s, room).rest;
            |rest| <= |s| && rest == s[|s| - |rest|..]
    decreases |s|, Measure(state), 0
  {
    hide Decode, Encode, Before, Transcode, Call, Lossy, Measure, StateOk, Target;
    Unfold(cv, state, s, room);
    UnfoldStops(cv, state, s);
    match Decode(cv.tables, cv.from, state, s)
    case IlSeq =>
    case Starved =>
    case Skip(len, state') =>
      CallTakesFront(cv, state', s[len..], room);
      Suffix(s, len, Call(cv, state, s, room).rest);
    case Char(len, c) =>
      var w := Encode(cv.tables, cv.to, c);
      if |w.bytes| <= room {
        var o := Call(cv, state, s[len..], room - |w.bytes|);
        CallTakesFront(cv, state, s[len..], room - |w.bytes|);
        BeforeFields(w.bytes, Lossy(w), o);
        Suffix(s, len, o.rest);
      }
  }

  lemma {:induction false} Suffix(s: Bytes, len: nat, rest: Bytes)
    requires len <= |s| && |rest| <= |s| - len && rest == s[len..][|s| - len - |rest|..]
    ensures rest == s[|s| - |rest|..]
  {
  }

  lemma {:induction false} RoomForEight(cv: Conversion, state: State, s: Bytes, room: nat)
    requires ConvOk(cv, state) && room >= 8
    ensures var o := Call(cv, state, s, room);
            o.stop == TooBig ==> |o.rest| < |s|
    decreases |s|, Measure(state)
  {
    if s != [] {
      RoomForEightStep(cv, state, s, room);
    }
  }

  lemma {:induction false} RoomForEightStep(cv: Conversion, state: State, s: Bytes, room: nat)
    requires ConvOk(cv, state) && room >= 8 && s != []
    ensures var o := Call(cv, state, s, room);
            o.stop == TooBig ==> |o.rest| < |s|
    decreases |s|, Measure(state), 0
  {
    hide Decode, Encode, Before, Transcode, Call, Lossy, Measure, StateOk, Target;
    Unfold(cv, state, s, room);
    match Decode(cv.tables, cv.from, state, s)
    case IlSeq =>
    case Starved =>
    case Skip(len, state') => RoomForEight(cv, state', s[len..], room);
    case Char(len, c) =>
      EncodeWrites(cv.tables, cv.to, c);
      var w := Encode(cv.tables, cv.to, c);
      BeforeFields(w.bytes, Lossy(w), Call(cv, state, s[len..], room - |w.bytes|));
      CallTakesFront(cv, state, s[len..], room - |w.bytes|);
  }

  /** A call stops for want of room only when the whole output does not fit, and leaves some input. */
  lemma {:induction false} TooBigMeans(cv: Conversion, state: State, s: Bytes, room: nat)
    requires ConvOk(cv, state) && Call(cv, state, s, room).stop == TooBig
    ensures |Transcode(cv, state, s).bytes| > room && Call(cv, state, s, room).rest != []
    decreases |s|, Measure(state)
  {
    if s != [] {
      TooBigMeansStep(cv, state, s, room);
    }
  }

  lemma {:induction false} TooBigMeansStep(cv: Conversion, state: State, s: Bytes, room: nat)
    requires ConvOk(cv, state) && s != [] && Call(cv, state, s, room).stop == TooBig
    ensures |Transcode(cv, state, s).bytes| > room && Call(cv, state, s, room).rest != []
    decreases |s|, Measure(state), 0
  {
    hide Decode, Encode, Before, Transcode, Call, Lossy, Measure, StateOk, Target;
    Unfold(cv, state, s, room);
    match Decode(cv.tables, cv.from, state, s)
    case IlSeq => assert false;
    case Starved => assert false;
    case Skip(len, state') => TooBigMeans(cv, state', s[len..], room);
    case Char(len, c) =>
      var w := Encode(cv.tables, cv.to, c);
      BeforeFields(w.bytes, Lossy(w), Transcode(cv, state, s[len..]));
      if |w.bytes| <= room {
        BeforeFields(w.bytes, Lossy(w), Call(cv, state, s[len..], room - |w.bytes|));
        TooBigMeans(cv, state, s[len..], room - |w.bytes|);
      }
  }

  /** One call does the whole conversion if and only if its output fits. */
  lemma {:induction false} EnoughRoomIff(cv: Conversion, state: State, s: Bytes, room: nat)
    requires ConvOk(cv, state)
    ensures Call(cv, state, s, room) == Transcode(cv, state, s) <==> room >= |Transcode(cv, state, s).bytes|
  {
    hide Transcode, Call, Before;
    CallResumes(cv, state, s, room);
    if Call(cv, state, s, room).stop == TooBig {
      TooBigMeans(cv, state, s, room);
    }
  }

  /** With at least eight bytes of room in each call, one call for every byte of input is enough. */
  lemma {:induction false} ScheduleEnds(cv: Conversion, state: State, s: Bytes, rooms: seq<nat>)
    requires ConvOk(cv, state) && |rooms| >= |s| && rooms != [] && forall i | 0 <= i < |rooms| :: rooms[i] >= 8
    ensures Schedule(cv, state, s, rooms) == Transcode(cv, state, s)
    decreases |rooms|
  {
    hide Transcode, Call, Before;
    AnySchedule(cv, state, s, rooms);
    RoomForEight(cv, state, s, rooms[0]);
    var o := Call(cv, state, s, rooms[0]);
    if o.stop == TooBig {
      TooBigMeans(cv, state, s, rooms[0]);
      ScheduleEnds(cv, o.state, o.rest, rooms[1..]);
      BeforeFields(o.bytes, o.lossy, Schedule(cv, o.state, o.rest, rooms[1..]));
    }
  }

  // ----- cutting the input -----

  /** Longer input reads the same as far as `n` bytes. */
  ghost predicate Extends(s: Bytes, u: Bytes) {
    |s| <= |u| && forall i | 0 <= i < |s| :: u[i] == s[i]
  }

  lemma {:induction false} More16(s: Bytes, u: Bytes, big: bool, pairs: bool)
    requires Extends(s, u)
    ensures Decode16(s, big, pairs) != Starved ==> Decode16(u, big, pairs) == Decode16(s, big, pairs)
    ensures Sniff16(s, pairs) != Starved ==> Sniff16(u, pairs) == Sniff16(s, pairs)
  {
    assert |s| >= 4 ==> u[2..][0] == s[2..][0] && u[2..][1] == s[2..][1];
  }

  lemma {:induction false} More32(s: Bytes, u: Bytes, big: bool)
    requires Extends(s, u)
    ensures Decode32(s, big) != Starved ==> Decode32(u, big) == Decode32(s, big)
    ensures Sniff32(s) != Starved ==> Sniff32(u) == Sniff32(s)
  {
    assert |s| >= 4 ==> Get32(u, big) == Get32(s, big) && Get32(u, true) == Get32(s, true);
  }

  lemma {:induction false} MoreJapanese(t: Tables, state: State, s: Bytes, u: Bytes)
    requires s != [] && Extends(s, u)
    ensures DecodeShiftJis(t, s) != Starved ==> DecodeShiftJis(t, u) == DecodeShiftJis(t, s)
    ensures DecodeEucJp(t, s) != Starved ==> DecodeEucJp(t, u) == DecodeEucJp(t, s)
    ensures DecodeIso2022Jp(t, state, s) != Starved ==> DecodeIso2022Jp(t, state, u) == DecodeIso2022Jp(t, state, s)
  {
    hide SjisLead;
  }

  lemma {:induction false} MoreOthers(t: Tables, cs: Charset, s: Bytes, u: Bytes)
    requires s != [] && Extends(s, u)
    ensures DecodeGb(t, cs, s) != Starved ==> DecodeGb(t, cs, u) == DecodeGb(t, cs, s)
    ensures DecodeEucKr(t, s) != Starved ==> DecodeEucKr(t, u) == DecodeEucKr(t, s)
  {
    hide Rank, KrColumn;
  }

  lemma {:induction false} DecodeFixedMore(t: Tables, cs: Charset, state: State, s: Bytes, u: Bytes)
    requires s != [] && Extends(s, u) && !Sniffs(cs) && DecodeFixed(t, cs, state, s) != Starved
    ensures DecodeFixed(t, cs, state, u) == DecodeFixed(t, cs, state, s)
  {
    hide Decode16, Decode32, DecodeShiftJis, DecodeEucJp, DecodeIso2022Jp, DecodeGb, DecodeEucKr;
    More16(s, u, true, true);
    More16(s, u, true, false);
    More16(s, u, false, true);
    More16(s, u, false, false);
    More32(s, u, true);
    More32(s, u, false);
    MoreJapanese(t, state, s, u);
    MoreOthers(t, cs, s, u);
  }

  /** More input changes nothing about a step that could be decided. */
  lemma {:induction false} DecodeMore(t: Tables, cs: Charset, state: State, s: Bytes, u: Bytes)
    requires s != [] && Extends(s, u) && StateOk(cs, state) && Decode(t, cs, state, s) != Starved
    ensures Decode(t, cs, state, u) == Decode(t, cs, state, s)
  {
    hide DecodeFixed, Sniff16, Sniff32, Extends;
    if !Sniffs(cs) {
      DecodeFixedMore(t, cs, state, s, u);
    } else if state != Zero {
      DecodeFixedMore(t, state.order, state, s, u);
    } else {
      More16(s, u, true, cs == Utf16);
      More32(s, u, true);
    }
  }

  /** Converting a first part, then what it left over together with the second part, converts the
      whole; a stop at an illegal sequence stays. */
  lemma {:induction false} CutInput(cv: Conversion, state: State, s: Bytes, more: Bytes)
    requires ConvOk(cv, state)
    ensures var o := Transcode(cv, state, s);
            var whole := Transcode(cv, state, s + more);
            if o.stop == IllegalSequence then whole == o.(rest := o.rest + more)
            else whole == Before(o.bytes, o.lossy, Transcode(cv, o.state, o.rest + more))
    decreases |s|, Measure(state)
  {
    if s == [] {
      assert s + more == more && [] + more == more;
      BeforeNothing(Transcode(cv, state, more));
    } else {
      CutInputStep(cv, state, s, more);
    }
  }

  lemma {:induction false} CutInputStep(cv: Conversion, state: State, s: Bytes, more: Bytes)
    requires ConvOk(cv, state) && s != []
    ensures var o := Transcode(cv, state, s);
            var whole := Transcode(cv, state, s + more);
            if o.stop == IllegalSequence then whole == o.(rest := o.rest + more)
            else whole == Before(o.bytes, o.lossy, Transcode(cv, o.state, o.rest + more))
    decreases |s|, Measure(state), 0
  {
    hide Decode, Encode, Before, Transcode, Call, Lossy, Extends, Measure, StateOk, Target;
    var u := s + more;
    ExtendsAppend(s, more);
    Unfold(cv, state, s, 0);
    UnfoldStops(cv, state, s);
    Unfold(cv, state, u, 0);
    UnfoldStops(cv, state, u);
    if Decode(cv.tables, cv.from, state, s) == Starved {
      BeforeNothing(Transcode(cv, state, u));
    } else {
      DecodeMore(cv.tables, cv.from, state, s, u);
      match Decode(cv.tables, cv.from, state, s)
      case IlSeq =>
      case Skip(len, state') =>
        assert u[len..] == s[len..] + more;
        CutInput(cv, state', s[len..], more);
      case Char(len, c) =>
        assert u[len..] == s[len..] + more;
        CutInput(cv, state, s[len..], more);
        var w := Encode(cv.tables, cv.to, c);
        var o := Transcode(cv, state, s[len..]);
        BeforeFields(w.bytes, Lossy(w), o);
        BeforeTwice(w.bytes, Lossy(w), o.bytes, o.lossy, Transcode(cv, o.state, o.rest + more));
        BeforeRest(w.bytes, Lossy(w), o, o.rest + more);
    }
  }

  lemma {:induction false} BeforeRest(a: Bytes, m: nat, o: Outcome, rest: Bytes)
    ensures Before(a, m, o.(rest := rest)) == Before(a, m, o).(rest := rest)
  {
  }

  lemma {:induction false} UnfoldStops(cv: Conversion, state: State, s: Bytes)
    requires ConvOk(cv, state) && s != []
    ensures Decode(cv.tables, cv.from, state, s) == IlSeq ==> Transcode(cv, state, s) == Outcome([], 0, s, state, IllegalSequence)
    ensures Decode(cv.tables, cv.from, state, s) == Starved ==> Transcode(cv, state, s) == Outcome([], 0, s, state, Incomplete)
  {
    hide Decode, Encode, Before;
  }

  lemma {:induction false} ExtendsAppend(s: Bytes, more: Bytes)
    ensures Extends(s, s + more)
  {
  }
}
