/**
 Matching responses to requests in agent_mesh.c: a thread in `agent_mesh_consult`,
 the listener thread, a peer, and other threads that only send. Each locked region
 is one step; the steps interleave freely.
 */
module MeshMatching {
  import opened Text

  /** The fields of `AgentMesh` that the lock guards. */
  datatype Mesh = Mesh(nextMsgId: nat, pendingReqId: nat, pendingResponse: Option<string>, pendingArrived: bool)

  const NEW_MESH: Mesh := Mesh(1, 0, None, false)

  // ---------- The locked regions ----------

  /** A consult begins: the id the next send is expected to take. */
  function Reserve(m: Mesh): Mesh {
    m.(pendingReqId := m.nextMsgId, pendingArrived := false, pendingResponse := None)
  }

  /** A send takes an id. */
  function TakeId(m: Mesh): Mesh {
    m.(nextMsgId := m.nextMsgId + 1)
  }

  /** A response arrives. */
  function OnResponse(m: Mesh, id: nat, payload: Option<string>): Mesh {
    if id == m.pendingReqId then m.(pendingResponse := Some(OrElse(payload, "{}")), pendingArrived := true) else m
  }

  /** What `agent_mesh_consult` returns when its wait ends. */
  function Result(m: Mesh): Option<string> {
    if m.pendingArrived then m.pendingResponse else None
  }

  /** A consult ends. */
  function Release(m: Mesh): Mesh {
    m.(pendingReqId := 0, pendingArrived := false,
       pendingResponse := if m.pendingArrived then None else m.pendingResponse)
  }

  // ---------- The system ----------

  /** Where the consulting thread is. `reserved` is the id it reserved, `own` the id its
      request took, `intruded` whether another send came between the two. */
  datatype Caller =
    | Idle
    | Reserved(reserved: nat, intruded: bool)
    | Waiting(reserved: nat, intruded: bool, own: nat)

  datatype Reply = Reply(id: nat, payload: Option<string>)

  /** One finished consult. */
  datatype Return = Return(own: nat, reserved: nat, intruded: bool, result: Option<string>)

  /** `requests` maps the ids of all messages that reached the wire to their bodies,
      `received` are those the peer has read, `replies` all it has ever sent; a reply
      may be delivered late, out of order, repeatedly or never. */
  datatype World = World(
    mesh: Mesh, caller: Caller, requests: map<nat, string>, received: set<nat>,
    replies: set<Reply>, finished: seq<Return>)

  const START: World := World(NEW_MESH, Idle, map[], {}, {}, [])

  datatype Step =
    | Begin
    | SendRefused
    | SendOwn(body: string, written: bool)
    | SendOther(body: string, written: bool)
    | PeerReceive(id: nat)
    | PeerReply(reply: Reply)
    | Deliver(reply: Reply)
    | Finish

  predicate Enabled(w: World, s: Step) {
    match s
    case Begin => w.caller.Idle?
    case SendRefused => w.caller.Reserved?
    case SendOwn(_, _) => w.caller.Reserved?
    case SendOther(_, _) => true
    case PeerReceive(id) => id in w.requests
    case PeerReply(r) => r.id in w.received
    case Deliver(r) => r in w.replies
    case Finish => w.caller.Waiting?
  }

  function Post(requests: map<nat, string>, id: nat, body: string, written: bool): map<nat, string> {
    if written then requests[id := body] else requests
  }

  /** A send that finds no connection takes no id, one whose write fails does; both end
      the consult and leave its reservation behind. */
  function Next(w: World, s: Step): World
    requires Enabled(w, s)
  {
    var m := w.mesh;
    match s
    case Begin => w.(mesh := Reserve(m), caller := Reserved(m.nextMsgId, false))
    case SendRefused => w.(caller := Idle)
    case SendOwn(body, written) =>
      w.(mesh := TakeId(m), requests := Post(w.requests, m.nextMsgId, body, written),
         caller := if written then Waiting(w.caller.reserved, w.caller.intruded, m.nextMsgId) else Idle)
    case SendOther(body, written) =>
      w.(mesh := TakeId(m), requests := Post(w.requests, m.nextMsgId, body, written),
         caller := if w.caller.Reserved? then Reserved(w.caller.reserved, true) else w.caller)
    case PeerReceive(id) => w.(received := w.received + {id})
    case PeerReply(r) => w.(replies := w.replies + {r})
    case Deliver(r) => w.(mesh := OnResponse(m, r.id, r.payload))
    case Finish =>
      w.(mesh := Release(m), caller := Idle,
         finished := w.finished + [Return(w.caller.own, w.caller.reserved, w.caller.intruded, Result(m))])
  }

  predicate Possible(w: World, steps: seq<Step>)
    decreases |steps|
  {
    steps == [] || (Enabled(w, steps[0]) && Possible(Next(w, steps[0]), steps[1..]))
  }

  function Run(w: World, steps: seq<Step>): World
    requires Possible(w, steps)
    decreases |steps|
  {
    if steps == [] then w else Run(Next(w, steps[0]), steps[1..])
  }

  // ---------- Safety ----------

  /** `text` is the payload of some reply to request `id`. */
  ghost predicate Answers(w: World, id: nat, text: string) {
    exists r :: r in w.replies && r.id == id && OrElse(r.payload, "{}") == text
  }

  /** A consult's answer is a reply to the request whose id it reserved, and that is
      its own request exactly when no other send came in between. */
  ghost predicate Justified(w: World, r: Return) {
    && (r.own == r.reserved <==> !r.intruded)
    && (r.result.Some? ==> Answers(w, r.reserved, r.result.value) && r.reserved in w.requests)
  }

  ghost predicate Network(w: World) {
    && 1 <= w.mesh.nextMsgId
    && (forall id :: id in w.requests ==> 1 <= id < w.mesh.nextMsgId)
    && (forall id :: id in w.received ==> id in w.requests)
    && forall r :: r in w.replies ==> r.id in w.received
  }

  /** What has arrived for the consulting thread answers the id it reserved. */
  ghost predicate Matched(w: World) {
    var c, m := w.caller, w.mesh;
    c.Idle? ||
    (m.pendingReqId == c.reserved && 1 <= c.reserved
     && (if c.Waiting? then c.reserved <= c.own < m.nextMsgId && (c.own == c.reserved <==> !c.intruded)
         else c.reserved <= m.nextMsgId && (c.reserved == m.nextMsgId <==> !c.intruded))
     && (m.pendingArrived ==> m.pendingResponse.Some? && Answers(w, c.reserved, m.pendingResponse.value)))
  }

  ghost predicate Inv(w: World) {
    Network(w) && Matched(w) && forall i :: 0 <= i < |w.finished| ==> Justified(w, w.finished[i])
  }

  /** Requests and replies only accumulate, so an answer stays an answer. */
  lemma AnswersStay(w: World, w': World, id: nat, text: string)
    requires Answers(w, id, text) && w.replies <= w'.replies
    ensures Answers(w', id, text)
  {
    var r :| r in w.replies && r.id == id && OrElse(r.payload, "{}") == text;
    assert r in w'.replies;
  }

  lemma {:induction false} ReturnsStay(w: World, w': World)
    requires forall i :: 0 <= i < |w.finished| ==> Justified(w, w.finished[i])
    requires w.replies <= w'.replies && w.requests.Keys <= w'.requests.Keys
    ensures forall i :: 0 <= i < |w.finished| ==> Justified(w', w.finished[i])
  {
    forall i | 0 <= i < |w.finished| ensures Justified(w', w.finished[i]) {
      var r := w.finished[i];
      if r.result.Some? { AnswersStay(w, w', r.reserved, r.result.value); }
    }
  }

  lemma {:induction false} StepKeeps(w: World, s: Step)
    requires Inv(w) && Enabled(w, s)
    ensures Inv(Next(w, s))
    ensures forall id :: id in w.requests ==> id in Next(w, s).requests && Next(w, s).requests[id] == w.requests[id]
  {
    var w' := Next(w, s);
    ReturnsStay(w, w');
    if !w.caller.Idle? && w.mesh.pendingArrived {
      AnswersStay(w, w', w.caller.reserved, w.mesh.pendingResponse.value);
    }
    match s
    case Deliver(r) =>
      assert Answers(w', r.id, OrElse(r.payload, "{}"));
    case Finish =>
      if w.mesh.pendingArrived {
        var r :| r in w.replies && r.id == w.caller.reserved;
        assert r.id in w.requests;
      }
    case _ =>
  }

  /** Over every interleaving: each finished consult is justified, and a request, once
      on the wire, is never confused with another that reuses its id. */
  lemma {:induction false} RunIsSafe(w: World, steps: seq<Step>)
    requires Inv(w) && Possible(w, steps)
    ensures Inv(Run(w, steps))
    ensures forall id :: id in w.requests ==>
              id in Run(w, steps).requests && Run(w, steps).requests[id] == w.requests[id]
    decreases |steps|
  {
    if steps != [] {
      StepKeeps(w, steps[0]);
      RunIsSafe(Next(w, steps[0]), steps[1..]);
    }
  }

  // ---------- The code ----------

  /** The locked regions on the fields they guard. `world` records what the other
      parties have done so far. */
  class AgentMesh {
    var nextMsgId: nat
    var pendingReqId: nat
    var pendingResponse: Option<string>
    var pendingArrived: bool
    ghost var world: World

    ghost predicate Valid()
      reads this
    {
      world.mesh == Mesh(nextMsgId, pendingReqId, pendingResponse, pendingArrived) && Inv(world)
    }

    constructor ()
      ensures Valid() && world == START
    {
      nextMsgId, pendingReqId, pendingResponse, pendingArrived := 1, 0, None, false;
      world := START;
    }

    /** What the peer does, and a send that finds no connection, leave the fields alone. */
    ghost method Observe(s: Step)
      requires Valid() && (s.PeerReceive? || s.PeerReply? || s.SendRefused?) && Enabled(world, s)
      modifies this`world
      ensures Valid() && world == Next(old(world), s)
    {
      StepKeeps(world, s);
      world := Next(world, s);
    }

    /** First region of `agent_mesh_consult`. */
    method BeginConsult()
      requires Valid() && Enabled(world, Begin)
      modifies this
      ensures Valid() && world == Next(old(world), Begin)
      ensures pendingReqId == nextMsgId == old(nextMsgId) && !pendingArrived && pendingResponse == None
    {
      StepKeeps(world, Begin);
      pendingReqId := nextMsgId;
      pendingArrived := false;
      if pendingResponse.Some? { pendingResponse := None; }
      world := Next(world, Begin);
    }

    /** The region of `agent_mesh_send`: no message on the wire has the id it returns. */
    method Send(ghost s: Step) returns (reqId: nat)
      requires Valid() && (s.SendOwn? || s.SendOther?) && Enabled(world, s)
      modifies this
      ensures Valid() && world == Next(old(world), s)
      ensures reqId == old(nextMsgId) && nextMsgId == reqId + 1
      ensures reqId !in old(world).requests && (s.written ==> world.requests == old(world).requests[reqId := s.body])
    {
      StepKeeps(world, s);
      reqId := nextMsgId;
      nextMsgId := nextMsgId + 1;
      world := Next(world, s);
    }

    /** The response branch of `mesh_handle_incoming_line`. */
    method HandleResponse(id: nat, payload: Option<string>)
      requires Valid() && Reply(id, payload) in world.replies
      modifies this
      ensures Valid() && world == Next(old(world), Deliver(Reply(id, payload)))
      ensures id == old(pendingReqId) ==>
                pendingArrived && pendingResponse == Some(match payload case Some(text) => text case None => "{}")
      ensures id != old(pendingReqId) ==>
                pendingArrived == old(pendingArrived) && pendingResponse == old(pendingResponse)
      ensures pendingReqId == old(pendingReqId) && nextMsgId == old(nextMsgId)
    {
      StepKeeps(world, Deliver(Reply(id, payload)));
      if id == pendingReqId {
        pendingResponse := if payload.Some? then payload else Some("{}");
        pendingArrived := true;
      }
      world := Next(world, Deliver(Reply(id, payload)));
    }

    /** Last region of `agent_mesh_consult`: what it returns is a reply to the id that the
        consult reserved, and its own request took that id unless another send intruded. */
    method FinishConsult() returns (res: Option<string>)
      requires Valid() && Enabled(world, Finish)
      modifies this
      ensures Valid() && world == Next(old(world), Finish)
      ensures res == if old(pendingArrived) then old(pendingResponse) else None
      ensures pendingReqId == 0 && !pendingArrived && nextMsgId == old(nextMsgId)
      ensures var c := old(world).caller;
              && (res.Some? ==> c.reserved in world.requests && Answers(world, c.reserved, res.value))
              && (c.own == c.reserved <==> !c.intruded)
    {
      StepKeeps(world, Finish);
      res := None;
      if pendingArrived && pendingResponse.Some? {
        res := pendingResponse;
        pendingResponse := None;
      }
      pendingReqId := 0;
      pendingArrived := false;
      world := Next(world, Finish);
      assert Justified(world, world.finished[|world.finished| - 1]);
    }
  }

  // ---------- One sender, and more ----------

  ghost predicate SingleSender(steps: seq<Step>) {
    forall s :: s in steps ==> !s.SendOther?
  }

  /** Nothing has intruded so far. */
  ghost predicate Undisturbed(w: World) {
    (w.caller.Idle? || !w.caller.intruded) && forall r :: r in w.finished ==> !r.intruded
  }

  lemma {:induction false} SingleSenderIsUndisturbed(w: World, steps: seq<Step>)
    requires Undisturbed(w) && Possible(w, steps) && SingleSender(steps)
    ensures Undisturbed(Run(w, steps))
    decreases |steps|
  {
    if steps != [] {
      assert steps[0] in steps && forall s :: s in steps[1..] ==> s in steps;
      SingleSenderIsUndisturbed(Next(w, steps[0]), steps[1..]);
    }
  }

  /** With one sending thread, whatever a consult returns is the peer's reply to its
      own request, never a late reply to an earlier one. */
  lemma {:induction false} ConsultReturnsOwnReply(steps: seq<Step>, i: nat)
    requires Possible(START, steps) && SingleSender(steps)
    requires i < |Run(START, steps).finished|
    ensures var w := Run(START, steps);
            var r := w.finished[i];
            r.result.Some? ==> r.own in w.requests && Answers(w, r.own, r.result.value)
  {
    RunIsSafe(START, steps);
    SingleSenderIsUndisturbed(START, steps);
    var w := Run(START, steps);
    assert w.finished[i] in w.finished && Justified(w, w.finished[i]);
  }

  // ---------- What a consult returns ----------

  /** The latest reply to `id` delivered in these steps, or else `sofar`; a missing payload
      reads "{}". */
  function Latest(steps: seq<Step>, id: nat, sofar: Option<string>): Option<string>
    decreases |steps|
  {
    if steps == [] then sofar
    else
      var now := match steps[0]
                 case Deliver(r) => if r.id != id then sofar else if r.payload.Some? then r.payload else Some("{}")
                 case _ => sofar;
      Latest(steps[1..], id, now)
  }

  ghost predicate OneConsult(steps: seq<Step>) {
    forall s :: s in steps ==> !s.Begin? && !s.Finish?
  }

  lemma ConsultTail(steps: seq<Step>)
    requires OneConsult(steps) && steps != []
    ensures !steps[0].Begin? && !steps[0].Finish? && OneConsult(steps[1..])
    ensures (steps + [Finish])[0] == steps[0] && (steps + [Finish])[1..] == steps[1..] + [Finish]
  {
    assert steps[0] in steps && forall s :: s in steps[1..] ==> s in steps;
  }

  lemma {:induction false} IdleNeverFinishes(w: World, steps: seq<Step>)
    requires w.caller.Idle? && OneConsult(steps)
    ensures !Possible(w, steps + [Finish])
    decreases |steps|
  {
    if steps == [] {
      assert (steps + [Finish])[0] == Finish;
    } else {
      ConsultTail(steps);
      if Enabled(w, steps[0]) { IdleNeverFinishes(Next(w, steps[0]), steps[1..]); }
    }
  }

  lemma {:induction false} ConsultGoesOn(w: World, steps: seq<Step>)
    requires !w.caller.Idle? && w.mesh.pendingReqId == w.caller.reserved
    requires w.mesh.pendingArrived ==> w.mesh.pendingResponse.Some?
    requires OneConsult(steps) && Possible(w, steps + [Finish])
    ensures var end, id := Run(w, steps + [Finish]), w.caller.reserved;
            && |end.finished| == |w.finished| + 1 && end.finished[..|w.finished|] == w.finished
            && end.finished[|w.finished|].reserved == id
            && end.finished[|w.finished|].result == Latest(steps, id, Result(w.mesh))
    decreases |steps|
  {
    if steps == [] {
      assert steps + [Finish] == [Finish] && [Finish][1..] == [];
      assert Run(w, [Finish]) == Run(Next(w, Finish), []);
    } else {
      ConsultTail(steps);
      var next := Next(w, steps[0]);
      if next.caller.Idle? { IdleNeverFinishes(next, steps[1..]); } else { ConsultGoesOn(next, steps[1..]); }
    }
  }

  /** A consult returns the latest reply to the id it reserved that was delivered while it
      lasted, and nothing exactly when there was none. */
  lemma {:induction false} ConsultReturnsLatest(w: World, steps: seq<Step>)
    requires w.caller.Idle? && OneConsult(steps) && Possible(w, [Begin] + steps + [Finish])
    ensures var end, id := Run(w, [Begin] + steps + [Finish]), w.mesh.nextMsgId;
            && |end.finished| == |w.finished| + 1 && end.finished[..|w.finished|] == w.finished
            && end.finished[|w.finished|].reserved == id
            && end.finished[|w.finished|].result == Latest(steps, id, None)
  {
    assert ([Begin] + steps + [Finish])[0] == Begin && ([Begin] + steps + [Finish])[1..] == steps + [Finish];
    ConsultGoesOn(Next(w, Begin), steps);
  }

  /** A send by another thread between the two regions takes the reserved id; the
      consult then returns the reply to that message and misses its own. */
  lemma {:induction false} IntrusionMisleads(own: string, other: string, reply: string) returns (steps: seq<Step>)
    ensures Possible(START, steps)
    ensures var w := Run(START, steps);
            w.finished == [Return(2, 1, true, Some(reply))] && w.requests == map[1 := other, 2 := own]
  {
    var r := Reply(1, Some(reply));
    var s1, s2, s3, s4, s5, s6, s7 :=
      Begin, SendOther(other, true), SendOwn(own, true), PeerReceive(1), PeerReply(r), Deliver(r), Finish;
    steps := [s1, s2, s3, s4, s5, s6, s7];
    var w1 := Next(START, s1);
    var w2 := Next(w1, s2);
    var w3 := Next(w2, s3);
    var w4 := Next(w3, s4);
    var w5 := Next(w4, s5);
    var w6 := Next(w5, s6);
    var w7 := Next(w6, s7);
    Unroll(w6, s7, []);
    Unroll(w5, s6, [s7]);
    Unroll(w4, s5, [s6, s7]);
    Unroll(w3, s4, [s5, s6, s7]);
    Unroll(w2, s3, [s4, s5, s6, s7]);
    Unroll(w1, s2, [s3, s4, s5, s6, s7]);
    Unroll(START, s1, [s2, s3, s4, s5, s6, s7]);
  }

  lemma Unroll(w: World, s: Step, rest: seq<Step>)
    requires Enabled(w, s) && Possible(Next(w, s), rest)
    ensures Possible(w, [s] + rest) && Run(w, [s] + rest) == Run(Next(w, s), rest)
  {
    assert ([s] + rest)[1..] == rest;
  }
}
