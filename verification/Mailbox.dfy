/** The single-slot mail and result boxes of the secure monitor, keyed by applet (tee/trusted_os/tz/tz.go). */
module Mailbox {
  datatype Boxes<+P> = Boxes(mail: map<nat, P>, results: map<nat, P>)

  datatype BoxOp<+P> =
    | SendMail(id: nat, payload: P)
    | RetrieveMail(id: nat)
    | WriteResponse(id: nat, payload: P)
    | ReadResponse(id: nat)

  datatype BoxResult<+P> = Stored | Taken(payload: P) | MailboxFull | NoMail | ResultBoxFull | NoResult

  /** State and result of one operation. A response that finds the box full empties it. */
  function Apply<P>(b: Boxes<P>, op: BoxOp<P>): (Boxes<P>, BoxResult<P>) {
    match op
    case SendMail(id, p) =>
      if id in b.mail then (b, MailboxFull) else (b.(mail := b.mail[id := p]), Stored)
    case RetrieveMail(id) =>
      if id in b.mail then (b.(mail := b.mail - {id}), Taken(b.mail[id])) else (b, NoMail)
    case WriteResponse(id, p) =>
      if id in b.results then (b.(results := b.results - {id}), ResultBoxFull) else (b.(results := b.results[id := p]), Stored)
    case ReadResponse(id) =>
      if id in b.results then (b.(results := b.results - {id}), Taken(b.results[id])) else (b, NoResult)
  }

  function After<P>(b: Boxes<P>, ops: seq<BoxOp<P>>): Boxes<P> {
    if ops == [] then b else Apply(After(b, ops[..|ops| - 1]), ops[|ops| - 1]).0
  }

  // ---------- what each operation puts in and takes out ----------

  datatype Flow<+P> = Flow(mailIn: seq<P>, mailOut: seq<P>, resultIn: seq<P>, resultOut: seq<P>, read: nat, overrun: nat)

  /** The payloads one operation stores for an applet, and the ones it takes out or destroys. */
  function FlowOf<P>(b: Boxes<P>, op: BoxOp<P>, id: nat): Flow<P> {
    var none := Flow([], [], [], [], 0, 0);
    if op.id != id then none
    else match op
      case SendMail(_, p) => if id in b.mail then none else none.(mailIn := [p])
      case RetrieveMail(_) => if id in b.mail then none.(mailOut := [b.mail[id]]) else none
      case WriteResponse(_, p) =>
        if id in b.results then none.(resultOut := [b.results[id]], overrun := 1) else none.(resultIn := [p])
      case ReadResponse(_) =>
        if id in b.results then none.(resultOut := [b.results[id]], read := 1) else none
  }

  function Total<P>(b: Boxes<P>, ops: seq<BoxOp<P>>, id: nat): Flow<P> {
    if ops == [] then Flow([], [], [], [], 0, 0)
    else
      var before := ops[..|ops| - 1];
      var t, f := Total(b, before, id), FlowOf(After(b, before), ops[|ops| - 1], id);
      Flow(t.mailIn + f.mailIn, t.mailOut + f.mailOut, t.resultIn + f.resultIn, t.resultOut + f.resultOut,
           t.read + f.read, t.overrun + f.overrun)
  }

  function Pending<P>(box: map<nat, P>, id: nat): seq<P> {
    if id in box then [box[id]] else []
  }

  /** What a successful retrieval or read hands out is what the flow records as leaving. */
  lemma TakenIsFlow<P>(b: Boxes<P>, op: BoxOp<P>)
    ensures var (b', r) := Apply(b, op);
      var f := FlowOf(b, op, op.id);
      && (op.RetrieveMail? ==> f.mailOut == if r.Taken? then [r.payload] else [])
      && (op.ReadResponse? ==> f.resultOut == if r.Taken? then [r.payload] else [])
      && (f.overrun == 1 <==> r == ResultBoxFull)
      && (f.read == 1 <==> op.ReadResponse? && r.Taken?)
      && (f.mailIn != [] <==> op.SendMail? && r.Stored?)
      && (f.resultIn != [] <==> op.WriteResponse? && r.Stored?)
  {
  }

  lemma FlowBalance<P>(b: Boxes<P>, op: BoxOp<P>, id: nat)
    ensures var (b', f) := (Apply(b, op).0, FlowOf(b, op, id));
      && Pending(b.mail, id) + f.mailIn == f.mailOut + Pending(b'.mail, id)
      && Pending(b.results, id) + f.resultIn == f.resultOut + Pending(b'.results, id)
      && |f.resultOut| == f.read + f.overrun
  {
  }

  /**
    * Conservation over every operation sequence, per applet and in order: the mail put in is the mail
    * taken out followed by what is pending; the results put in are those read or overrun, followed by
    * what is pending. Nothing is delivered twice, reordered, or handed to another applet.
    */
  lemma {:induction false} Conservation<P>(b: Boxes<P>, ops: seq<BoxOp<P>>, id: nat)
    ensures var (b', t) := (After(b, ops), Total(b, ops, id));
      && Pending(b.mail, id) + t.mailIn == t.mailOut + Pending(b'.mail, id)
      && Pending(b.results, id) + t.resultIn == t.resultOut + Pending(b'.results, id)
      && |t.resultOut| == t.read + t.overrun
  {
    if ops == [] {
      assert Pending(b.mail, id) + [] == [] + Pending(b.mail, id);
      assert Pending(b.results, id) + [] == [] + Pending(b.results, id);
    } else {
      var before, op := ops[..|ops| - 1], ops[|ops| - 1];
      Conservation(b, before, id);
      var mid, t := After(b, before), Total(b, before, id);
      FlowBalance(mid, op, id);
      var f, last := FlowOf(mid, op, id), Apply(mid, op).0;
      Chain(Pending(b.mail, id), t.mailIn, t.mailOut, Pending(mid.mail, id), f.mailIn, f.mailOut, Pending(last.mail, id));
      Chain(Pending(b.results, id), t.resultIn, t.resultOut, Pending(mid.results, id), f.resultIn, f.resultOut, Pending(last.results, id));
    }
  }

  lemma Chain<P>(p0: seq<P>, i0: seq<P>, o0: seq<P>, p1: seq<P>, i1: seq<P>, o1: seq<P>, p2: seq<P>)
    requires p0 + i0 == o0 + p1
    requires p1 + i1 == o1 + p2
    ensures p0 + (i0 + i1) == (o0 + o1) + p2
  {
    calc {
      p0 + (i0 + i1);
      (p0 + i0) + i1;
      o0 + (p1 + i1);
      o0 + (o1 + p2);
      (o0 + o1) + p2;
    }
  }
}
