/**
  * The secure monitor: every RPC of the non-secure world is followed, before control returns to it,
  * by running each applet that has mail (tee/trusted_os/tz/tz.go, tee/cryptography_applet/main.go).
  */
module Monitor {
  import opened Bytes
  import opened Mailbox

  /**
    * `apps` maps an applet ID to what its image answers to a payload, None when dispatching fails.
    * `fatalExits` says whether the applet's fatal log on that failure is an ordinary exit or stops
    * the monitor; every theorem holds either way.
    */
  datatype Config<!P> = Config(apps: map<nat, P -> Option<P>>, fatalExits: bool)

  /** Running the applet for this mail panics the monitor. */
  predicate AppletFaults<P>(cfg: Config<P>, b: Boxes<P>, id: nat)
    requires id in b.mail
  {
    || id !in cfg.apps
    || (cfg.apps[id](b.mail[id]).None? && !cfg.fatalExits)
    || (cfg.apps[id](b.mail[id]).Some? && id in b.results)
  }

  ghost predicate DispatchFaults<P>(cfg: Config<P>, b: Boxes<P>) {
    exists id :: id in b.mail && AppletFaults(cfg, b, id)
  }

  /** The results that the applets named in `ids` write. */
  ghost function Produced<P>(cfg: Config<P>, mail: map<nat, P>, ids: set<nat>): map<nat, P>
    requires ids <= mail.Keys && ids <= cfg.apps.Keys
  {
    map id | id in ids && cfg.apps[id](mail[id]).Some? :: cfg.apps[id](mail[id]).value
  }

  /** The boxes after a dispatch that does not fault: no mail, one result per answered mail. */
  ghost function Dispatched<P>(cfg: Config<P>, b: Boxes<P>): Boxes<P>
    requires !DispatchFaults(cfg, b)
  {
    assert forall id :: id in b.mail ==> !AppletFaults(cfg, b, id);
    Boxes(map[], b.results + Produced(cfg, b.mail, b.mail.Keys))
  }

  datatype World<+P> = Running(boxes: Boxes<P>) | Faulted

  /** An RPC from the non-secure world: the box operation, then the dispatch. */
  ghost function Rpc<P>(cfg: Config<P>, b: Boxes<P>, op: BoxOp<P>): World<P> {
    var b' := Apply(b, op).0;
    if DispatchFaults(cfg, b') then Faulted else Running(Dispatched(cfg, b'))
  }

  /** The boxes after one applet has run without a fault. */
  function AppletRun<P>(cfg: Config<P>, b: Boxes<P>, id: nat): Boxes<P>
    requires id in b.mail && !AppletFaults(cfg, b, id)
  {
    var resp := cfg.apps[id](b.mail[id]);
    Boxes(b.mail - {id}, if resp.None? then b.results else b.results[id := resp.value])
  }

  class Context<P> {
    const cfg: Config<P>
    var mailbox: map<nat, P>
    var resultBox: map<nat, P>
    var faulted: bool

    ghost function Value(): Boxes<P>
      reads this
    {
      Boxes(mailbox, resultBox)
    }

    ghost function World(): World<P>
      reads this
    {
      if faulted then Faulted else Running(Value())
    }

    constructor (cfg: Config<P>)
      ensures this.cfg == cfg && Value() == Boxes(map[], map[]) && !faulted
    {
      this.cfg, mailbox, resultBox, faulted := cfg, map[], map[], false;
    }

    method RetrieveMail(id: nat) returns (r: BoxResult<P>)
      modifies this`mailbox
      ensures (Value(), r) == Apply(old(Value()), BoxOp.RetrieveMail(id))
    {
      if id !in mailbox {
        return NoMail;
      }
      r := Taken(mailbox[id]);
      mailbox := mailbox - {id};
    }

    method WriteResponse(id: nat, payload: P) returns (r: BoxResult<P>)
      modifies this`resultBox
      ensures (Value(), r) == Apply(old(Value()), BoxOp.WriteResponse(id, payload))
    {
      var found := id in resultBox;
      resultBox := resultBox - {id};
      if found {
        return ResultBoxFull;
      }
      assert resultBox == old(resultBox);
      resultBox := resultBox[id := payload];
      return Stored;
    }

    method ReadResponse(id: nat) returns (r: BoxResult<P>)
      modifies this`resultBox
      ensures (Value(), r) == Apply(old(Value()), BoxOp.ReadResponse(id))
    {
      if id !in resultBox {
        return NoResult;
      }
      r := Taken(resultBox[id]);
      resultBox := resultBox - {id};
    }

    method SendMail(id: nat, payload: P) returns (r: BoxResult<P>)
      modifies this`mailbox
      ensures (Value(), r) == Apply(old(Value()), BoxOp.SendMail(id, payload))
    {
      if id in mailbox {
        return MailboxFull;
      }
      mailbox := mailbox[id := payload];
      return Stored;
    }

    /** `loadTA` and `run`: the applet takes its mail, dispatches it, writes the response and exits. */
    method RunApplet(id: nat)
      requires id in mailbox && !faulted
      modifies this
      ensures faulted == AppletFaults(cfg, old(Value()), id)
      ensures !faulted ==> Value() == AppletRun(cfg, old(Value()), id)
    {
      if id !in cfg.apps {
        faulted := true;
        return;
      }
      var mail := RetrieveMail(id);
      var resp := cfg.apps[id](mail.payload);
      if resp.None? {
        faulted := !cfg.fatalExits;
        return;
      }
      var written := WriteResponse(id, resp.value);
      if !written.Stored? {
        faulted := true;
      }
    }

    /** Visits the applets with mail in an arbitrary order; the outcome does not depend on it. */
    method DispatchAppsCalls()
      requires !faulted
      modifies this
      ensures faulted <==> DispatchFaults(cfg, old(Value()))
      ensures !faulted ==> Value() == Dispatched(cfg, old(Value()))
    {
      ghost var b := Value();
      var todo := mailbox.Keys;
      PartwayStart(cfg, b);
      while todo != {}
        invariant !faulted
        invariant Visited(cfg, b, todo)
        invariant Value() == Partway(cfg, b, todo)
        decreases todo
      {
        var id :| id in todo;
        PartwayStep(cfg, b, todo, id);
        RunApplet(id);
        if faulted {
          return;
        }
        todo := todo - {id};
      }
      PartwayEnd(cfg, b);
    }

    /** `NonsecureRPC.SendMail` as one system call of the non-secure world. */
    method NonsecureSend(id: nat, payload: P) returns (r: BoxResult<P>)
      requires !faulted
      modifies this
      ensures World() == Rpc(cfg, old(Value()), BoxOp.SendMail(id, payload))
      ensures r == Apply(old(Value()), BoxOp.SendMail(id, payload)).1
    {
      r := SendMail(id, payload);
      DispatchAppsCalls();
    }

    /** `NonsecureRPC.RetrieveResult` as one system call of the non-secure world. */
    method NonsecureRead(id: nat) returns (r: BoxResult<P>)
      requires !faulted
      modifies this
      ensures World() == Rpc(cfg, old(Value()), BoxOp.ReadResponse(id))
      ensures r == Apply(old(Value()), BoxOp.ReadResponse(id)).1
    {
      r := ReadResponse(id);
      DispatchAppsCalls();
    }
  }

  // ---------- a dispatch seen partway ----------

  /** Everything outside `todo` has run without a fault. */
  ghost predicate Visited<P>(cfg: Config<P>, b: Boxes<P>, todo: set<nat>) {
    todo <= b.mail.Keys && forall id :: id in b.mail && id !in todo ==> !AppletFaults(cfg, b, id)
  }

  ghost function Partway<P>(cfg: Config<P>, b: Boxes<P>, todo: set<nat>): Boxes<P>
    requires Visited(cfg, b, todo)
  {
    Boxes(map id | id in todo :: b.mail[id], b.results + Produced(cfg, b.mail, b.mail.Keys - todo))
  }

  lemma PartwayStart<P>(cfg: Config<P>, b: Boxes<P>)
    ensures Visited(cfg, b, b.mail.Keys) && Partway(cfg, b, b.mail.Keys) == b
  {
    assert b.mail.Keys - b.mail.Keys == {};
    assert Produced(cfg, b.mail, {}) == map[];
    assert b.results + map[] == b.results;
    assert (map id | id in b.mail.Keys :: b.mail[id]) == b.mail;
  }

  /** Running one more applet faults as it would have at the start, and otherwise moves one step on. */
  lemma PartwayStep<P>(cfg: Config<P>, b: Boxes<P>, todo: set<nat>, id: nat)
    requires Visited(cfg, b, todo) && id in todo
    ensures var p := Partway(cfg, b, todo);
      && id in p.mail
      && AppletFaults(cfg, p, id) == AppletFaults(cfg, b, id)
      && (!AppletFaults(cfg, p, id) ==>
            Visited(cfg, b, todo - {id}) && AppletRun(cfg, p, id) == Partway(cfg, b, todo - {id}))
  {
    var p := Partway(cfg, b, todo);
    var made := Produced(cfg, b.mail, b.mail.Keys - todo);
    assert id !in made;
    assert id in p.results <==> id in b.results;
    if !AppletFaults(cfg, b, id) {
      ProducedMore(cfg, b, b.mail.Keys - todo, id);
      assert b.mail.Keys - (todo - {id}) == b.mail.Keys - todo + {id};
      assert p.mail - {id} == map k | k in todo - {id} :: b.mail[k];
    }
  }

  lemma ProducedMore<P>(cfg: Config<P>, b: Boxes<P>, ids: set<nat>, id: nat)
    requires ids <= b.mail.Keys && ids <= cfg.apps.Keys && id in b.mail && id in cfg.apps
    ensures var resp := cfg.apps[id](b.mail[id]);
      id !in ids ==>
        b.results + Produced(cfg, b.mail, ids + {id}) ==
        (if resp.None? then b.results + Produced(cfg, b.mail, ids) else (b.results + Produced(cfg, b.mail, ids))[id := resp.value])
  {
  }

  lemma PartwayEnd<P>(cfg: Config<P>, b: Boxes<P>)
    requires Visited(cfg, b, {})
    ensures !DispatchFaults(cfg, b) && Partway(cfg, b, {}) == Dispatched(cfg, b)
  {
    assert b.mail.Keys - {} == b.mail.Keys;
  }
}
