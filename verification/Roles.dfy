/** What the role of a Raft node means (examples/toy_raft.py:61-172). */
module Roles {
  import opened Wrappers
  import opened Orders
  import opened Disks
  import opened Raft
  import opened Election

  ghost predicate Leads(c: Cluster, i: Id, t: nat) {
    c.Running(i) && c.nodes[i].state.role.Leader? && c.nodes[i].state.term == t
  }

  ghost predicate Recorded(c: Cluster, i: Id, t: nat) {
    t in c.leaders && i in c.leaders[t]
  }

  /** A node that calls itself leader of a term is recorded as one, and so is every node in whose name a
      heartbeat of that term was ever sent. */
  ghost predicate RolesRecorded(c: Cluster) {
    && (forall i: Id, t: nat | Leads(c, i, t) :: Recorded(c, i, t))
    && (forall i: Id, t: nat | Called(Heartbeat(t, i)) in c.sent :: Recorded(c, i, t))
  }

  /** Records are never taken back, and neither are heartbeats. */
  lemma RecordsStay(w: Setup, c: Cluster, step: Step, i: Id, t: nat)
    requires Recorded(c, i, t)
    ensures Recorded(Next(w, c, step), i, t)
  {
  }

  lemma LeadersStayRecorded(w: Setup, c: Cluster, step: Step, i: Id, t: nat)
    requires RolesRecorded(c) && Leads(Next(w, c, step), i, t)
    ensures Recorded(Next(w, c, step), i, t)
  {
    if i == step.node && step.Finish? && c.Running(i) && !c.nodes[i].state.role.Leader? {
      assert t == c.nodes[i].campaign.value.term;
    } else {
      assert Leads(c, i, t);
      RecordsStay(w, c, step, i, t);
    }
  }

  lemma NextRoles(w: Setup, c: Cluster, step: Step)
    requires RolesRecorded(c)
    ensures RolesRecorded(Next(w, c, step))
  {
    var d := Next(w, c, step);
    forall i: Id, t: nat | Leads(d, i, t) ensures Recorded(d, i, t) {
      LeadersStayRecorded(w, c, step, i, t);
    }
    forall i: Id, t: nat | Called(Heartbeat(t, i)) in d.sent ensures Recorded(d, i, t) {
      if Called(Heartbeat(t, i)) !in c.sent {
        assert Leads(c, i, t);
      }
      RecordsStay(w, c, step, i, t);
    }
  }

  /** In every state any run reaches, with the planted bug or without. */
  lemma {:induction false} ReachedRoles(w: Setup, steps: seq<Step>)
    ensures RolesRecorded(Reached(w, steps))
  {
    if steps != [] {
      ReachedRoles(w, steps[..|steps| - 1]);
      NextRoles(w, Reached(w, steps[..|steps| - 1]), steps[|steps| - 1]);
    }
  }

  /** No two nodes ever call themselves leader of one term: neither at one time, nor at two different
      times of a run. */
  lemma OneLeaderByRole(w: Setup, steps: seq<Step>, earlier: nat, t: nat, a: Id, b: Id)
    requires w.codec.RoundTrips() && !w.buggy && earlier <= |steps|
    requires Leads(Reached(w, steps[..earlier]), a, t) && Leads(Reached(w, steps), b, t)
    ensures a == b
  {
    ReachedRoles(w, steps[..earlier]);
    ReachedRoles(w, steps);
    RecordsLast(w, steps, earlier, a, t);
    ElectionSafety(w, steps, t, a, b);
  }

  lemma {:induction false} RecordsLast(w: Setup, steps: seq<Step>, earlier: nat, i: Id, t: nat)
    requires earlier <= |steps| && Recorded(Reached(w, steps[..earlier]), i, t)
    ensures Recorded(Reached(w, steps), i, t)
    decreases |steps|
  {
    if earlier == |steps| {
      assert steps[..earlier] == steps;
    } else {
      var before := steps[..|steps| - 1];
      assert before[..earlier] == steps[..earlier];
      RecordsLast(w, before, earlier, i, t);
      RecordsStay(w, Reached(w, before), steps[|steps| - 1], i, t);
    }
  }

  /** Every heartbeat ever sent comes from the one winner of its term. */
  lemma HeartbeatsComeFromTheWinner(w: Setup, steps: seq<Step>, t: nat, a: Id, b: Id)
    requires w.codec.RoundTrips() && !w.buggy
    requires Called(Heartbeat(t, a)) in Reached(w, steps).sent
    ensures Won(Reached(w, steps), t, a)
    ensures Recorded(Reached(w, steps), b, t) || Called(Heartbeat(t, b)) in Reached(w, steps).sent ==> a == b
  {
    var c := Reached(w, steps);
    ReachedInv(w, steps);
    ReachedRoles(w, steps);
    assert Recorded(c, a, t);
    if Recorded(c, b, t) || Called(Heartbeat(t, b)) in c.sent {
      ElectionSafety(w, steps, t, a, b);
    }
  }

  /** A node that hears another node's heartbeat of its own or a later term follows it in that term;
      one of an earlier term it answers with its own term, and stays as it is. */
  lemma HeartbeatIsFollowed(w: Setup, c: Cluster, i: Id, t: nat, from: Id)
    requires c.Running(i) && from != i && Called(Heartbeat(t, from)) in c.sent
    ensures
      var before := c.nodes[i].state;
      var after := Next(w, c, Receive(i, Heartbeat(t, from))).nodes[i].state;
      if t >= before.term then after.role.Follower? && after.term == t else after == before
  {
  }

  /** Without the bug a leader never steps down for a heartbeat of its own term: nobody else sends any. */
  lemma LeadersAreNotDeposedByEquals(w: Setup, steps: seq<Step>, i: Id, t: nat, from: Id)
    requires w.codec.RoundTrips() && !w.buggy && from != i
    requires Leads(Reached(w, steps), i, t)
    ensures Called(Heartbeat(t, from)) !in Reached(w, steps).sent
  {
    ReachedRoles(w, steps);
    if Called(Heartbeat(t, from)) in Reached(w, steps).sent {
      HeartbeatsComeFromTheWinner(w, steps, t, from, i);
    }
  }

  /** A call of a later term makes any node, leader or not, a follower of that term. */
  lemma LaterTermDeposes(w: Setup, c: Cluster, i: Id, request: Request)
    requires c.Running(i) && request.from != i && Called(request) in c.sent && request.term > c.nodes[i].state.term
    ensures
      var after := Next(w, c, Receive(i, request)).nodes[i].state;
      after.role.Follower? && after.term == request.term
  {
  }

  /** What the reply says, without the bug: a vote is granted exactly when the node now stands in the
      term of the request with its vote on the one who asked; a heartbeat is acknowledged exactly when
      the node now stands in its term. Either way the reply carries the node's term. */
  lemma RepliesAreTrue(codec: Codec, before: NodeState, name: Id, request: Request)
    ensures
      var (after, reply) := before.OnRpc(codec, name, request, false);
      && reply.term == after.term >= request.term && after.term >= before.term
      && (request.VoteRequest? <==> reply.VoteReply?)
      && (request.VoteRequest? ==>
           (reply.granted <==> after.term == request.term && after.votedFor == Some(request.from)))
      && (request.Heartbeat? ==> (reply.ok <==> after.term == request.term))
  {
  }

  // ---------------------------------------------------------------------------------------------
  // Terms and votes
  // ---------------------------------------------------------------------------------------------

  /** Later term, or the same with the same vote, or with a first vote. */
  ghost predicate Advances(before: (nat, Option<Id>), after: (nat, Option<Id>)) {
    after.0 > before.0 || (after.0 == before.0 && (before.1 == None || after.1 == before.1))
  }

  /** No step, power cut or restart makes a node forget a term or change a vote within one. */
  lemma BallotsAdvance(w: Setup, steps: seq<Step>, step: Step, j: Id)
    requires w.codec.RoundTrips() && !w.buggy && j < w.size
    ensures
      var c := Reached(w, steps);
      var d := Next(w, c, step);
      |d.nodes| == |c.nodes| == w.size && Advances(Ballot(w, c.nodes[j]), Ballot(w, d.nodes[j]))
  {
    ReachedInv(w, steps);
    BallotAdvances(w, Reached(w, steps), step, j);
  }

  lemma BallotAdvances(w: Setup, c: Cluster, step: Step, j: Id)
    requires w.codec.RoundTrips() && !w.buggy && j < |c.nodes| && NodeDurable(w, c.nodes[j])
    ensures
      var d := Next(w, c, step);
      |d.nodes| == |c.nodes| && Advances(Ballot(w, c.nodes[j]), Ballot(w, d.nodes[j]))
  {
    if j == step.node && step.Crash? && c.Running(j) && c.nodes[j].state.disk.MayBecome(step.disk) {
      var state := c.nodes[j].state;
      DurableSurvives(w.codec, state.disk, step.disk, state.term, state.votedFor);
    }
    if j == step.node && step.Finish? && c.Running(j) && c.nodes[j].campaign.Some? {
      var answers := Answers(PeersBelow(|c.nodes|, j), c.nodes[j].campaign.value.replies);
      if c.nodes[j].state.Counted(answers).None? {
        FirstHigherIsHigher(c.nodes[j].state, answers);
      }
    }
  }

  // ---------------------------------------------------------------------------------------------
  // From role to role
  // ---------------------------------------------------------------------------------------------

  /** Some reply of the campaign is of a later term than its node has. */
  ghost predicate HeardHigher(c: Cluster, i: Id, state: NodeState, campaign: Campaign) {
    exists p: Id | p < |c.nodes| && p != i && p in campaign.replies :: campaign.replies[p].term > state.term
  }

  lemma {:induction false} CountedUnlessHigher(state: NodeState, peers: seq<Id>, replies: map<Id, Reply>)
    ensures state.Counted(Answers(peers, replies)).None? <==>
      exists p :: p in peers && p in replies && replies[p].term > state.term
  {
    if peers != [] {
      AnswersStep(peers, replies);
      CountedUnlessHigher(state, peers[1..], replies);
      assert peers == [peers[0]] + peers[1..];
    }
  }

  /** When a campaign ends its node is elected exactly if it is still a candidate of the term it
      campaigned for, no reply was of a later term, and with its own vote a majority of the cluster
      granted theirs. After a reply of a later term it is a follower. */
  lemma ElectedExactly(w: Setup, c: Cluster, i: Id)
    requires c.Running(i) && c.nodes[i].campaign.Some?
    ensures
      var (state, campaign) := (c.nodes[i].state, c.nodes[i].campaign.value);
      var d := Next(w, c, Finish(i));
      && |d.nodes| == |c.nodes| && d.nodes[i].Up?
      && (!state.role.Leader? ==>
           (Leads(d, i, campaign.term) <==>
             && state.role.Candidate? && state.term == campaign.term
             && !HeardHigher(c, i, state, campaign)
             && 2 * (1 + |Granters(PeersBelow(|c.nodes|, i), campaign.replies)|) > |c.nodes|))
      && (HeardHigher(c, i, state, campaign) ==>
           d.nodes[i].state.role.Follower? && d.nodes[i].state.term > state.term)
  {
    var (state, campaign) := (c.nodes[i].state, c.nodes[i].campaign.value);
    var peers := PeersBelow(|c.nodes|, i);
    CountedUnlessHigher(state, peers, campaign.replies);
    assert state.Counted(Answers(peers, campaign.replies)).None? <==> HeardHigher(c, i, state, campaign);
    if HeardHigher(c, i, state, campaign) {
      FirstHigherIsHigher(state, Answers(peers, campaign.replies));
    } else {
      PeersDistinct(|c.nodes|, i);
      VotesAreGranters(state, peers, campaign.replies);
    }
  }

  /** The only ways from role to role, those of Figure 4 of "In Search of an Understandable Consensus
      Algorithm": a campaign opens in a new term unless its node leads; a leader was a candidate of that
      very term whose campaign ended; and who stops being a leader or a candidate has heard of another
      node's lead in its term, or of a later term. */
  lemma RoleChanges(w: Setup, c: Cluster, step: Step, i: Id)
    requires c.Running(i) && Next(w, c, step).Running(i)
    ensures
      var before, after := c.nodes[i].state, Next(w, c, step).nodes[i].state;
      && (after.role.Candidate? ==>
            || (before.role.Candidate? && after.term == before.term)
            || (step == Start(i) && !before.role.Leader? && after.term == before.term + 1))
      && (after.role.Leader? ==>
            && after.term == before.term
            && (before.role.Leader? || (before.role.Candidate? && step == Finish(i))))
      && (after.role.Follower? && !before.role.Follower? ==>
            || after.term > before.term
            || (step.Receive? && step.request == Heartbeat(before.term, step.request.from)))
  {
    if i == step.node && step.Finish? && c.nodes[i].campaign.Some? {
      var answers := Answers(PeersBelow(|c.nodes|, i), c.nodes[i].campaign.value.replies);
      if c.nodes[i].state.Counted(answers).None? {
        FirstHigherIsHigher(c.nodes[i].state, answers);
      }
    }
  }
}
