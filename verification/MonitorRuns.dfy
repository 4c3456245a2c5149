/** Whole runs of the monitor under an arbitrary non-secure world. */
module MonitorRuns {
  import opened Bytes
  import opened Mailbox
  import opened Monitor

  datatype NsCall<+P> = NsSend(id: nat, payload: P) | NsRead(id: nat) | NsOther

  /** A system call; those that are not RPCs touch neither box and dispatch nothing. */
  ghost function Call<P>(cfg: Config<P>, w: World<P>, c: NsCall<P>): World<P> {
    match w
    case Faulted => Faulted
    case Running(b) =>
      match c
      case NsSend(id, p) => Rpc(cfg, b, SendMail(id, p))
      case NsRead(id) => Rpc(cfg, b, ReadResponse(id))
      case NsOther => w
  }

  ghost function RunFrom<P>(cfg: Config<P>, w: World<P>, calls: seq<NsCall<P>>): World<P> {
    if calls == [] then w else Call(cfg, RunFrom(cfg, w, calls[..|calls| - 1]), calls[|calls| - 1])
  }

  ghost function Run<P>(cfg: Config<P>, calls: seq<NsCall<P>>): World<P> {
    RunFrom(cfg, Running(Boxes(map[], map[])), calls)
  }

  // ---------- one call when no mail is waiting ----------

  lemma SendFromEmpty<P>(cfg: Config<P>, b: Boxes<P>, id: nat, p: P)
    requires b.mail == map[]
    ensures Apply(b, SendMail(id, p)).1 == Stored
    ensures Rpc(cfg, b, SendMail(id, p)) ==
      if id !in cfg.apps then Faulted
      else match cfg.apps[id](p)
        case None => if cfg.fatalExits then Running(b) else Faulted
        case Some(r) => if id in b.results then Faulted else Running(b.(results := b.results[id := r]))
  {
    var b' := Apply(b, SendMail(id, p)).0;
    assert b'.mail == map[id := p] && b'.mail.Keys == {id};
    if AppletFaults(cfg, b', id) {
      assert DispatchFaults(cfg, b');
    } else {
      assert !DispatchFaults(cfg, b');
      var made := Produced(cfg, b'.mail, {id});
      if cfg.apps[id](p).None? {
        assert made == map[];
        assert b.results + map[] == b.results;
      } else {
        assert b.results + made == b.results[id := cfg.apps[id](p).value];
      }
    }
  }

  lemma ReadFromEmpty<P>(cfg: Config<P>, b: Boxes<P>, id: nat)
    requires b.mail == map[]
    ensures Rpc(cfg, b, ReadResponse(id)) == Running(b.(results := b.results - {id}))
  {
    var b' := Apply(b, ReadResponse(id)).0;
    assert b'.results == b.results - {id};
    assert !DispatchFaults(cfg, b');
    assert Produced(cfg, b'.mail, b'.mail.Keys) == map[];
    assert b'.results + map[] == b'.results;
  }

  // ---------- the state of the boxes, read off the calls ----------

  /** The answer that is waiting for the non-secure world after these calls. */
  function Waiting<P>(cfg: Config<P>, calls: seq<NsCall<P>>, id: nat): Option<P> {
    if calls == [] then None
    else
      var before, c := calls[..|calls| - 1], calls[|calls| - 1];
      match c
      case NsOther => Waiting(cfg, before, id)
      case NsRead(i) => if i == id then None else Waiting(cfg, before, id)
      case NsSend(i, p) =>
        if i == id && id in cfg.apps && cfg.apps[id](p).Some? then cfg.apps[id](p) else Waiting(cfg, before, id)
  }

  /** The send at position j was answered by r, and nothing since has read or replaced that answer. */
  predicate Unread<P(==)>(cfg: Config<P>, calls: seq<NsCall<P>>, id: nat, j: nat, r: P) {
    && j < |calls| && calls[j].NsSend? && calls[j].id == id
    && id in cfg.apps && cfg.apps[id](calls[j].payload) == Some(r)
    && forall k :: j < k < |calls| ==> calls[k].NsOther? || calls[k].id != id || (calls[k].NsSend? && cfg.apps[id](calls[k].payload).None?)
  }

  /** What is waiting is the answer to the most recent answered send, unless it has been read since. */
  lemma {:induction false} WaitingIff<P>(cfg: Config<P>, calls: seq<NsCall<P>>, id: nat, r: P)
    ensures Waiting(cfg, calls, id) == Some(r) <==> exists j: nat :: Unread(cfg, calls, id, j, r)
  {
    if calls != [] {
      var n := |calls| - 1;
      var before, c := calls[..n], calls[n];
      WaitingIff(cfg, before, id, r);
      assert forall k :: 0 <= k < n ==> before[k] == calls[k];
      forall j: nat | j < n
        ensures Unread(cfg, calls, id, j, r) <==>
          (Unread(cfg, before, id, j, r) && (c.NsOther? || c.id != id || (c.NsSend? && cfg.apps[id](c.payload).None?)))
      {
      }
      if c.NsSend? && c.id == id && id in cfg.apps && cfg.apps[id](c.payload).Some? {
        assert Unread(cfg, calls, id, n, cfg.apps[id](c.payload).value);
      }
    }
  }

  /** This call does not panic the monitor, judged by the calls before it. */
  predicate SafeCall<P>(cfg: Config<P>, before: seq<NsCall<P>>, c: NsCall<P>) {
    c.NsSend? ==>
      && c.id in cfg.apps
      && (cfg.apps[c.id](c.payload).None? ==> cfg.fatalExits)
      && (cfg.apps[c.id](c.payload).Some? ==> Waiting(cfg, before, c.id).None?)
  }

  predicate Safe<P>(cfg: Config<P>, calls: seq<NsCall<P>>) {
    forall i :: 0 <= i < |calls| ==> SafeCall(cfg, calls[..i], calls[i])
  }

  /** No mail waits, and exactly the waiting answers are in the result box. */
  ghost predicate Mirrors<P>(cfg: Config<P>, calls: seq<NsCall<P>>, b: Boxes<P>) {
    && b.mail == map[]
    && forall id: nat :: Pending(b.results, id) == if Waiting(cfg, calls, id).Some? then [Waiting(cfg, calls, id).value] else []
  }

  lemma MirrorStep<P>(cfg: Config<P>, before: seq<NsCall<P>>, c: NsCall<P>, b: Boxes<P>)
    requires Mirrors(cfg, before, b)
    ensures Call(cfg, Running(b), c).Running? <==> SafeCall(cfg, before, c)
    ensures SafeCall(cfg, before, c) ==> Mirrors(cfg, before + [c], Call(cfg, Running(b), c).boxes)
  {
    var calls := before + [c];
    assert calls[..|before|] == before;
    match c {
      case NsOther =>
      case NsRead(id) =>
        ReadFromEmpty(cfg, b, id);
        assert forall i: nat :: i != id ==> Pending(b.results - {id}, i) == Pending(b.results, i);
      case NsSend(id, p) =>
        SendFromEmpty(cfg, b, id, p);
        assert Pending(b.results, id) == if Waiting(cfg, before, id).Some? then [Waiting(cfg, before, id).value] else [];
        if SafeCall(cfg, before, c) && cfg.apps[id](p).Some? {
          var b' := Call(cfg, Running(b), c).boxes;
          assert forall i: nat :: i != id ==> Pending(b'.results, i) == Pending(b.results, i);
        }
    }
  }

  /**
    * Exact fault condition, for every run of the non-secure world: the monitor survives if and only if
    * each send goes to a registered applet, is answered unless failures exit quietly, and finds no
    * unread answer. Whenever the non-secure world is in control the mailbox is empty.
    */
  lemma {:induction false} SurvivesIffSafe<P>(cfg: Config<P>, calls: seq<NsCall<P>>)
    ensures Run(cfg, calls).Running? <==> Safe(cfg, calls)
    ensures Run(cfg, calls).Running? ==> Mirrors(cfg, calls, Run(cfg, calls).boxes)
  {
    if calls != [] {
      var before, c := calls[..|calls| - 1], calls[|calls| - 1];
      SurvivesIffSafe(cfg, before);
      assert calls == before + [c];
      SafeAppend(cfg, before, c);
      if Run(cfg, before).Running? {
        MirrorStep(cfg, before, c, Run(cfg, before).boxes);
      }
    }
  }

  lemma SafeAppend<P>(cfg: Config<P>, before: seq<NsCall<P>>, c: NsCall<P>)
    ensures Safe(cfg, before + [c]) <==> Safe(cfg, before) && SafeCall(cfg, before, c)
  {
    var n, calls := |before|, before + [c];
    assert forall i :: 0 <= i < n ==> before[..i] == calls[..i] && before[i] == calls[i];
    assert calls[..n] == before && calls[n] == c;
    if Safe(cfg, calls) {
      assert SafeCall(cfg, calls[..n], calls[n]);
      forall i | 0 <= i < n
        ensures SafeCall(cfg, before[..i], before[i])
      {
        assert SafeCall(cfg, calls[..i], calls[i]);
      }
    }
  }

  /** In every surviving run, sending finds the mailbox free and reading gets the waiting answer or none. */
  lemma RepliesAreHistory<P>(cfg: Config<P>, calls: seq<NsCall<P>>, id: nat, p: P)
    requires Run(cfg, calls).Running?
    ensures Apply(Run(cfg, calls).boxes, SendMail(id, p)).1 == Stored
    ensures Apply(Run(cfg, calls).boxes, ReadResponse(id)).1 ==
      match Waiting(cfg, calls, id) case None => NoResult case Some(r) => Taken(r)
  {
    SurvivesIffSafe(cfg, calls);
    var b := Run(cfg, calls).boxes;
    assert Pending(b.results, id) == if Waiting(cfg, calls, id).Some? then [Waiting(cfg, calls, id).value] else [];
  }

  // ---------- a client that reads every answer ----------

  datatype Request<+P> = Request(id: nat, payload: P)

  /** Each request is a send followed by a read of the same applet. */
  function Alternating<P>(rs: seq<Request<P>>): seq<NsCall<P>> {
    if rs == [] then []
    else
      var r := rs[|rs| - 1];
      Alternating(rs[..|rs| - 1]) + [NsSend(r.id, r.payload), NsRead(r.id)]
  }

  predicate Answerable<P>(cfg: Config<P>, r: Request<P>) {
    r.id in cfg.apps && (cfg.apps[r.id](r.payload).Some? || cfg.fatalExits)
  }

  /** Sending this request after these calls and then reading gets the applet's answer to it. */
  ghost predicate AnsweredAfter<P>(cfg: Config<P>, calls: seq<NsCall<P>>, r: Request<P>) {
    var sent := Run(cfg, calls + [NsSend(r.id, r.payload)]);
    r.id in cfg.apps && sent.Running? && Apply(sent.boxes, ReadResponse(r.id)).1 ==
      (match cfg.apps[r.id](r.payload) case None => NoResult case Some(resp) => Taken(resp))
  }

  lemma RunOneMore<P>(cfg: Config<P>, calls: seq<NsCall<P>>, c: NsCall<P>)
    ensures Run(cfg, calls + [c]) == Call(cfg, Run(cfg, calls), c)
  {
    assert (calls + [c])[..|calls|] == calls;
  }

  /** The result box that one request leaves before its answer is read. */
  function Answered<P>(cfg: Config<P>, r: Request<P>): Boxes<P>
    requires r.id in cfg.apps
  {
    match cfg.apps[r.id](r.payload)
    case None => Boxes(map[], map[])
    case Some(resp) => Boxes(map[], map[r.id := resp])
  }

  lemma AlternatingSend<P>(cfg: Config<P>, calls: seq<NsCall<P>>, r: Request<P>)
    requires Run(cfg, calls) == Running(Boxes(map[], map[])) && Answerable(cfg, r)
    ensures Run(cfg, calls + [NsSend(r.id, r.payload)]) == Running(Answered(cfg, r))
  {
    RunOneMore(cfg, calls, NsSend(r.id, r.payload));
    SendFromEmpty(cfg, Boxes(map[], map[]), r.id, r.payload);
  }

  lemma AlternatingStep<P>(cfg: Config<P>, calls: seq<NsCall<P>>, r: Request<P>)
    requires Run(cfg, calls) == Running(Boxes(map[], map[])) && Answerable(cfg, r)
    ensures AnsweredAfter(cfg, calls, r)
    ensures Run(cfg, calls + [NsSend(r.id, r.payload)] + [NsRead(r.id)]) == Running(Boxes(map[], map[]))
  {
    var sent := calls + [NsSend(r.id, r.payload)];
    AlternatingSend(cfg, calls, r);
    RunOneMore(cfg, sent, NsRead(r.id));
    ReadFromEmpty(cfg, Answered(cfg, r), r.id);
    assert Answered(cfg, r).results - {r.id} == map[];
  }

  lemma TwoCalls<T>(calls: seq<T>, a: T, b: T)
    ensures calls + [a] + [b] == calls + [a, b]
  {
  }

  /** Such a client never meets a full result box, gets each request's own answer, and leaves no trace. */
  lemma {:induction false} AlternatingClient<P>(cfg: Config<P>, rs: seq<Request<P>>)
    requires forall k :: 0 <= k < |rs| ==> Answerable(cfg, rs[k])
    ensures Run(cfg, Alternating(rs)) == Running(Boxes(map[], map[]))
    ensures rs != [] ==> AnsweredAfter(cfg, Alternating(rs[..|rs| - 1]), rs[|rs| - 1])
  {
    if rs != [] {
      var before, r := rs[..|rs| - 1], rs[|rs| - 1];
      AlternatingClient(cfg, before);
      AlternatingStep(cfg, Alternating(before), r);
      TwoCalls(Alternating(before), NsSend(r.id, r.payload), NsRead(r.id));
    }
  }
}
