/**
 Resumption: however input and room are handed to inflate call by call, it decodes
 what the one-shot decoder decodes, and says the same about the stream.
 */
module Resumption {
  import opened BitStream
  import opened Decoder
  import opened DecoderRuns
  import opened Inflate

  /** What one call of inflate did: all input offered so far (what earlier calls left is offered
      again), how far all output may grow, and the decoder state when it returned. */
  datatype Call = Call(given: seq<byte>, limit: nat, state: Dec)

  ghost predicate CallOk(d: Dec, c: Call)
  {
    Reaches(d, c.state, c.given, c.limit) && Stuck(c.state, c.given, c.limit)
  }

  /** Calls one after another, each from the state the one before it left. */
  ghost predicate Session(d: Dec, calls: seq<Call>)
    decreases |calls|
  {
    calls != [] ==> CallOk(d, calls[0]) && Session(calls[0].state, calls[1..])
  }

  function Last(d: Dec, calls: seq<Call>): Dec
  {
    if calls == [] then d else calls[|calls| - 1].state
  }

  /** The session is over parts of this stream, and never past this much output. */
  predicate Within(calls: seq<Call>, stream: seq<byte>, limit: nat)
  {
    forall i :: 0 <= i < |calls| ==> calls[i].given <= stream && calls[i].limit <= limit
  }

  /** A session is one run of the decoder on the whole stream. */
  lemma {:induction false} SessionIsRun(d: Dec, calls: seq<Call>, stream: seq<byte>, limit: nat)
    requires Ok(d) && Session(d, calls) && Within(calls, stream, limit)
    ensures Reaches(d, Last(d, calls), stream, limit)
    ensures Ok(Last(d, calls)) && d.out <= Last(d, calls).out
    decreases |calls|
  {
    hide Reaches, Stuck, Ok;
    if calls == [] {
      ReachesSelf(d, stream, limit);
    } else {
      var c := calls[0];
      assert calls[0].given <= stream;
      ReachesMore(d, c.state, c.given, c.limit, stream, limit);
      ReachesKeepsOk(d, c.state, c.given, c.limit);
      SessionIsRun(c.state, calls[1..], stream, limit);
      assert Last(c.state, calls[1..]) == Last(d, calls);
      ReachesTrans(d, c.state, Last(d, calls), stream, limit);
    }
  }

  /** Stuck with room to spare is stuck with more room. */
  lemma StuckWithRoom(d: Dec, inp: seq<byte>, limit: nat, limit': nat)
    requires Stuck(d, inp, limit) && |d.out| < limit && |d.out| < limit'
    ensures Stuck(d, inp, limit')
  {}

  lemma EndedIsStuck(d: Dec, inp: seq<byte>, limit: nat)
    requires d.phase.Finished? || d.phase.Bad?
    ensures Stuck(d, inp, limit)
  {}

  /** Nothing more can come of the stream: the end, an error, or all of it was offered and there was room. */
  predicate Settled(calls: seq<Call>, stream: seq<byte>)
  {
    calls != [] &&
    var c := calls[|calls| - 1];
    c.state.phase.Finished? || c.state.phase.Bad? || (c.given == stream && |c.state.out| < c.limit)
  }

  lemma {:induction false} LastStuck(d: Dec, calls: seq<Call>)
    requires calls != [] && Session(d, calls)
    ensures var c := calls[|calls| - 1]; Stuck(c.state, c.given, c.limit)
    decreases |calls|
  {
    hide Reaches, Stuck;
    if |calls| > 1 {
      LastStuck(calls[0].state, calls[1..]);
    }
  }

  /** A settled session ends in the state that the one-shot decoder gets stuck in with the whole
      stream and all the room there was (or more): the same bytes and the same verdict. */
  lemma SettledIsOneShot(calls: seq<Call>, stream: seq<byte>, limit: nat, one: Dec)
    requires Session(Initial(), calls) && Within(calls, stream, limit) && Settled(calls, stream)
    requires Reaches(Initial(), one, stream, limit) && Stuck(one, stream, limit)
    ensures Last(Initial(), calls) == one
  {
    hide Reaches, Stuck;
    var c := calls[|calls| - 1];
    SessionIsRun(Initial(), calls, stream, limit);
    LastStuck(Initial(), calls);
    if c.state.phase.Finished? || c.state.phase.Bad? {
      EndedIsStuck(c.state, stream, limit);
    } else {
      assert c.limit <= limit;
      StuckWithRoom(c.state, stream, c.limit, limit);
    }
    EndUnique(Initial(), one, c.state, stream, limit);
  }

  /** Two ways of cutting up the same stream and the same output agree. */
  lemma PartitionDoesNotMatter(one: seq<Call>, two: seq<Call>, stream: seq<byte>)
    requires Session(Initial(), one) && Session(Initial(), two)
    requires forall i :: 0 <= i < |one| ==> one[i].given <= stream
    requires forall i :: 0 <= i < |two| ==> two[i].given <= stream
    requires Settled(one, stream) && Settled(two, stream)
    ensures Last(Initial(), one) == Last(Initial(), two)
  {
    hide Reaches, Stuck, Session;
    var limit := MaxLimit(one) + MaxLimit(two);
    LimitIsMax(one);
    LimitIsMax(two);
    var end := Last(Initial(), two);
    SessionIsRun(Initial(), two, stream, limit);
    LastStuck(Initial(), two);
    var c := two[|two| - 1];
    if end.phase.Finished? || end.phase.Bad? {
      EndedIsStuck(end, stream, limit);
    } else {
      StuckWithRoom(end, stream, c.limit, limit);
    }
    SettledIsOneShot(one, stream, limit, end);
  }

  function MaxLimit(calls: seq<Call>): nat
  {
    if calls == [] then 0
    else
      var m := MaxLimit(calls[..|calls| - 1]);
      if m < calls[|calls| - 1].limit then calls[|calls| - 1].limit else m
  }

  lemma {:induction false} LimitIsMax(calls: seq<Call>)
    ensures forall i :: 0 <= i < |calls| ==> calls[i].limit <= MaxLimit(calls)
  {
    if calls != [] {
      LimitIsMax(calls[..|calls| - 1]);
      forall i | 0 <= i < |calls|
        ensures calls[i].limit <= MaxLimit(calls)
      {
        if i < |calls| - 1 {
          assert calls[..|calls| - 1][i] == calls[i];
        }
      }
    }
  }

  /** Before it is settled, a session has produced the first bytes of what the stream decodes to. */
  lemma OutputIsPrefix(calls: seq<Call>, stream: seq<byte>, limit: nat, one: Dec)
    requires Session(Initial(), calls) && Within(calls, stream, limit)
    requires Reaches(Initial(), one, stream, limit) && Stuck(one, stream, limit)
    ensures Last(Initial(), calls).out <= one.out
  {
    hide Stuck, Session, Step;
    var e := Last(Initial(), calls);
    SessionIsRun(Initial(), calls, stream, limit);
    var m: nat :| Steps(Initial(), one, stream, limit, m);
    var n: nat :| Steps(Initial(), e, stream, limit, n);
    ThroughTo(Initial(), e, one, stream, limit, n, m);
    ReachesKeepsOk(e, one, stream, limit);
  }

  /** A run that ends stuck passes through every state that can be reached. */
  lemma {:induction false} ThroughTo(d: Dec, e: Dec, one: Dec, inp: seq<byte>, limit: nat, n: nat, m: nat)
    requires Ok(d) && Steps(d, e, inp, limit, n) && Steps(d, one, inp, limit, m) && Stuck(one, inp, limit)
    ensures Reaches(e, one, inp, limit) && Ok(e)
    decreases n
  {
    hide Step, Ok;
    if n != 0 {
      if m == 0 {
        assert false;
      }
      var s := Step(d, inp, |d.out| < limit).value;
      StepKeepsOk(d, inp, |d.out| < limit);
      ThroughTo(s, e, one, inp, limit, n - 1, m - 1);
    }
  }

  /** Cuts of a stream and of its output: how much input and room each call is given at least. */
  datatype Cut = Cut(input: nat, room: nat)

  /** One call: the input up to the cut that earlier calls have not used, and a buffer of its own. */
  method CallWith(z: Inflater, stream: seq<byte>, used: nat, cut: Cut)
    returns (ret: Return, used': nat, bytes: seq<byte>, ghost c: Call)
    requires z.Valid() && used <= |stream| && z.consumed == stream[..used]
    modifies z, z.lens, z.work, z.codes, z.window
    ensures z.Valid() && used <= used' <= |stream| && z.consumed == stream[..used'] && z.history == old(z.history) + bytes
    ensures CallOk(old(z.State()), c) && c.state == z.State() && c.given <= stream
    ensures c.given == stream[..if used + cut.input <= |stream| then used + cut.input else |stream|]
    ensures c.limit == |old(z.history)| + cut.room && |bytes| <= cut.room
    ensures ret == STREAM_END <==> c.state.phase.Finished?
    ensures ret == DATA_ERROR <==> c.state.phase.Bad?
  {
    hide Inflater.Valid, Inflater.State, Reaches, Stuck;
    var upto := if used + cut.input <= |stream| then used + cut.input else |stream|;
    var buffer := new byte[cut.room];
    var next, put;
    ret, next, put := z.Inflate(stream[used..upto], buffer, false);
    assert stream[..used] + stream[used..upto] == stream[..upto];
    assert stream[..used] + stream[used..upto][..next] == stream[..used + next];
    bytes := buffer[..put];
    used' := used + next;
    c := Call(stream[..upto], |old(z.history)| + buffer.Length, z.State());
  }

  /** The room of all calls together. */
  function Room(cuts: seq<Cut>): nat
  {
    if cuts == [] then 0 else Room(cuts[..|cuts| - 1]) + cuts[|cuts| - 1].room
  }

  /** What the one-shot decoder makes of the stream. */
  ghost predicate OneShot(stream: seq<byte>, limit: nat, one: Dec)
  {
    Reaches(Initial(), one, stream, limit) && Stuck(one, stream, limit)
  }

  lemma Agrees(calls: seq<Call>, stream: seq<byte>, room: nat, limit: nat, one: Dec)
    requires Session(Initial(), calls) && Within(calls, stream, room) && room <= limit && OneShot(stream, limit, one)
    ensures var e := Last(Initial(), calls);
            e.out <= one.out && (e.phase.Finished? || e.phase.Bad? ==> e == one)
  {
    hide Reaches, Stuck, Session;
    var e := Last(Initial(), calls);
    if calls != [] && (e.phase.Finished? || e.phase.Bad?) {
      SettledIsOneShot(calls, stream, limit, one);
    }
    OutputIsPrefix(calls, stream, limit, one);
  }

  lemma StateOut(z: Inflater)
    ensures z.State().out == z.history
  {}

  /** Decode a stream call by call, whatever the cuts are. */
  method Decode(stream: seq<byte>, cuts: seq<Cut>) returns (out: seq<byte>, ret: Return, ghost calls: seq<Call>)
    ensures |calls| == |cuts| && Session(Initial(), calls)
    ensures forall i :: 0 <= i < |calls| ==> calls[i].given <= stream
    ensures out == Last(Initial(), calls).out
    ensures cuts != [] ==> (ret == STREAM_END <==> Last(Initial(), calls).phase.Finished?)
    ensures cuts != [] ==> (ret == DATA_ERROR <==> Last(Initial(), calls).phase.Bad?)
    ensures forall limit: nat, one: Dec :: OneShot(stream, limit, one) && Room(cuts) <= limit ==>
              && out <= one.out
              && (ret == STREAM_END ==> out == one.out && one.phase.Finished?)
              && (ret == DATA_ERROR ==> out == one.out && one.phase.Bad?)
  {
    hide Inflater.Valid, Inflater.State, CallOk, Session, Initial, OneShot;
    var z := new Inflater();
    out, ret, calls := [], OK, [];
    NoCalls(Initial());
    StateOut(z);
    var used := 0;
    for i := 0 to |cuts|
      invariant |calls| == i && Session(Initial(), calls)
      invariant Within(calls, stream, Room(cuts[..i])) && |out| <= Room(cuts[..i])
      invariant fresh(z) && fresh(z.window) && fresh(z.lens) && fresh(z.work) && fresh(z.codes)
      invariant z.Valid() && z.State() == Last(Initial(), calls) && z.State().out == out
      invariant used <= |stream| && z.consumed == stream[..used] && z.history == out
      invariant (i == 0 ==> ret == OK) && (i != 0 ==> (ret == STREAM_END <==> Last(Initial(), calls).phase.Finished?))
      invariant i != 0 ==> (ret == DATA_ERROR <==> Last(Initial(), calls).phase.Bad?)
    {
      var bytes;
      ghost var c;
      ret, used, bytes, c := CallWith(z, stream, used, cuts[i]);
      assert cuts[..i + 1][..i] == cuts[..i];
      SessionOn(Initial(), calls, c);
      calls := calls + [c];
      out := out + bytes;
      StateOut(z);
    }
    assert cuts[..|cuts|] == cuts;
    forall limit: nat, one: Dec | OneShot(stream, limit, one) && Room(cuts) <= limit
      ensures Last(Initial(), calls).out <= one.out
      ensures Last(Initial(), calls).phase.Finished? || Last(Initial(), calls).phase.Bad? ==> Last(Initial(), calls) == one
    {
      Agrees(calls, stream, Room(cuts), limit, one);
    }
  }

  lemma NoCalls(d: Dec)
    ensures Session(d, [])
  {}

  lemma {:induction false} SessionOn(d: Dec, calls: seq<Call>, c: Call)
    requires Session(d, calls) && CallOk(Last(d, calls), c)
    ensures Session(d, calls + [c])
    decreases |calls|
  {
    hide CallOk;
    if calls == [] {
      assert (calls + [c])[1..] == [];
    } else {
      SessionOn(calls[0].state, calls[1..], c);
      assert (calls + [c])[1..] == calls[1..] + [c];
    }
  }
}
