/** A cluster of Raft nodes under any schedule (examples/toy_raft.py:61-238), messages and power cuts
    included. */
module Election {
  import opened Wrappers
  import opened Orders
  import opened Disks
  import opened Raft

  /** A campaign waiting for its replies, as far as they have arrived. */
  datatype Campaign = Campaign(term: nat, replies: map<Id, Reply>)

  datatype Node =
    | Down(disk: DiskState)
    | Up(state: NodeState, campaign: Option<Campaign>)

  datatype Message =
    | Called(request: Request)
    | Replied(to: Id, term: nat, voter: Id, reply: Reply)

  /** Sent messages are never taken away, so any of them may still arrive, or arrive again. */
  datatype Cluster = Cluster(nodes: seq<Node>, sent: set<Message>, leaders: map<nat, set<Id>>)
  {
    ghost predicate Running(i: Id) {
      i < |nodes| && nodes[i].Up?
    }
  }

  datatype Step =
    | Start(node: Id)                      // the election timeout of a node that is not leader
    | Receive(node: Id, request: Request)  // a call reaches its server
    | Answer(node: Id, message: Message)   // a reply reaches the campaign that asked
    | Finish(node: Id)                     // a campaign stops waiting: missing replies have failed
    | Beat(node: Id)                       // a leader calls its peers
    | Crash(node: Id, disk: DiskState)     // a power cut, and what it leaves on disk
    | Restart(node: Id)

  datatype Setup = Setup(size: nat, codec: Codec, buggy: bool)

  function PeersBelow(n: nat, name: Id): (peers: seq<Id>)
    ensures forall p: Id :: p in peers <==> p < n && p != name
    ensures |peers| == if name < n then n - 1 else n
  {
    if n == 0 then [] else PeersBelow(n - 1, name) + (if n - 1 == name then [] else [n - 1])
  }

  /** The replies of a campaign in the order of its node's peers. */
  function Answers(peers: seq<Id>, replies: map<Id, Reply>): (answers: seq<Option<Reply>>)
    ensures |answers| == |peers|
  {
    if peers == [] then [] else
    [if peers[0] in replies then Some(replies[peers[0]]) else None] + Answers(peers[1..], replies)
  }

  function Elect(leaders: map<nat, set<Id>>, term: nat, name: Id): map<nat, set<Id>> {
    leaders[term := (if term in leaders then leaders[term] else {}) + {name}]
  }

  ghost function Initial(w: Setup): Cluster {
    Cluster(seq(w.size, i => Up(Restored(w.codec, DiskState(map[], map[])), None)), {}, map[])
  }

  /** One step of the cluster; a step that is not enabled changes nothing. */
  ghost function Next(w: Setup, c: Cluster, step: Step): Cluster {
    var i := step.node;
    match step
    case Start(_) =>
      if c.Running(i) && c.nodes[i].campaign.None? && !c.nodes[i].state.role.Leader? then
        var state := c.nodes[i].state.Campaigning(w.codec, i);
        Cluster(c.nodes[i := Up(state, Some(Campaign(state.term, map[])))],
                c.sent + {Called(VoteRequest(state.term, i))}, c.leaders)
      else c
    case Receive(_, request) =>
      if c.Running(i) && Called(request) in c.sent && request.from != i then
        var (state, reply) := c.nodes[i].state.OnRpc(w.codec, i, request, w.buggy);
        Cluster(c.nodes[i := Up(state, c.nodes[i].campaign)],
                if request.VoteRequest? then c.sent + {Replied(request.from, request.term, i, reply)} else c.sent,
                c.leaders)
      else c
    case Answer(_, message) =>
      if c.Running(i) && message in c.sent && message.Replied? && message.to == i
         && c.nodes[i].campaign.Some? && c.nodes[i].campaign.value.term == message.term then
        var campaign := c.nodes[i].campaign.value;
        var replies := campaign.replies[message.voter := message.reply];
        c.(nodes := c.nodes[i := Up(c.nodes[i].state, Some(Campaign(campaign.term, replies)))])
      else c
    case Finish(_) =>
      if c.Running(i) && c.nodes[i].campaign.Some? then
        var campaign := c.nodes[i].campaign.value;
        var answers := Answers(PeersBelow(|c.nodes|, i), campaign.replies);
        var (state, won) := c.nodes[i].state.Concluded(w.codec, answers, campaign.term);
        Cluster(c.nodes[i := Up(state, None)], c.sent,
                if won then Elect(c.leaders, campaign.term, i) else c.leaders)
      else c
    case Beat(_) =>
      if c.Running(i) && c.nodes[i].state.role.Leader? then
        c.(sent := c.sent + {Called(Heartbeat(c.nodes[i].state.term, i))})
      else c
    case Crash(_, disk) =>
      if c.Running(i) && c.nodes[i].state.disk.MayBecome(disk) then c.(nodes := c.nodes[i := Down(disk)]) else c
    case Restart(_) =>
      if i < |c.nodes| && c.nodes[i].Down? then
        c.(nodes := c.nodes[i := Up(Restored(w.codec, c.nodes[i].disk), None)])
      else c
  }

  ghost function Reached(w: Setup, steps: seq<Step>): Cluster {
    if steps == [] then Initial(w)
    else Next(w, Reached(w, steps[..|steps| - 1]), steps[|steps| - 1])
  }

  // ---------------------------------------------------------------------------------------------
  // The invariant
  // ---------------------------------------------------------------------------------------------

  /** Term and vote of a node, up or down. */
  ghost function Ballot(w: Setup, node: Node): (nat, Option<Id>) {
    match node
    case Up(state, _) => (state.term, state.votedFor)
    case Down(disk) => w.codec.Load(disk)
  }

  /** Node `j` has given its vote of term `t` to `i`: its own vote when it campaigns, or a reply. */
  ghost predicate Cast(c: Cluster, j: Id, t: nat, i: Id) {
    (j == i && Called(VoteRequest(t, i)) in c.sent) || exists r: nat :: Replied(i, t, j, VoteReply(true, r)) in c.sent
  }

  ghost predicate NodeDurable(w: Setup, node: Node) {
    match node
    case Up(state, _) => w.codec.Durable(state.disk, state.term, state.votedFor)
    case Down(disk) => STATE_FILE !in disk.buffered
  }

  /** A vote once cast binds its node for as long as it stays in that term. */
  ghost predicate Bound(w: Setup, c: Cluster, j: Id, t: nat, i: Id) {
    && j < |c.nodes| && i < |c.nodes|
    && (Ballot(w, c.nodes[j]).0 > t || Ballot(w, c.nodes[j]) == (t, Some(i)))
  }

  ghost predicate VotesBind(w: Setup, c: Cluster) {
    forall j, t, i | Cast(c, j, t, i) :: Bound(w, c, j, t, i)
  }

  ghost predicate OneVotePerTerm(c: Cluster) {
    forall j, t, a, b | Cast(c, j, t, a) && Cast(c, j, t, b) :: a == b
  }

  /** A campaign counts only votes that were cast for it. */
  ghost predicate Honest(c: Cluster, i: Id, campaign: Campaign) {
    && Cast(c, i, campaign.term, i)
    && forall voter | GrantsVote(campaign.replies, voter) ::
         Cast(c, voter, campaign.term, i)
  }

  ghost predicate CampaignHonest(c: Cluster, i: Id, node: Node) {
    node.Up? && node.campaign.Some? ==> Honest(c, i, node.campaign.value)
  }

  /** More than half of `n` nodes; with `n - 1` peers, what a node counts as its majority. */
  function QuorumSize(n: nat): (size: nat)
    ensures n > 0 ==> size == Majority(n - 1)
  {
    n / 2 + 1
  }

  ghost predicate IsQuorum(c: Cluster, quorum: set<Id>) {
    quorum <= Below(|c.nodes|) && |quorum| >= QuorumSize(|c.nodes|)
  }

  ghost predicate Unanimous(c: Cluster, quorum: set<Id>, t: nat, i: Id) {
    forall j | j in quorum :: Cast(c, j, t, i)
  }

  ghost predicate Won(c: Cluster, t: nat, i: Id) {
    exists quorum :: IsQuorum(c, quorum) && Unanimous(c, quorum, t, i)
  }

  ghost predicate LeadersWon(c: Cluster) {
    forall t, i | t in c.leaders && i in c.leaders[t] :: Won(c, t, i)
  }

  ghost predicate Inv(w: Setup, c: Cluster) {
    && |c.nodes| == w.size
    && (forall j | 0 <= j < |c.nodes| :: NodeDurable(w, c.nodes[j]))
    && (forall j | 0 <= j < |c.nodes| :: CampaignHonest(c, j, c.nodes[j]))
    && VotesBind(w, c)
    && OneVotePerTerm(c)
    && LeadersWon(c)
  }

  // ---------------------------------------------------------------------------------------------
  // Every step keeps it
  // ---------------------------------------------------------------------------------------------

  /** Votes are never taken back. */
  ghost predicate KeepsVotes(before: Cluster, after: Cluster) {
    && |after.nodes| == |before.nodes|
    && before.sent <= after.sent
    && forall j, t, i | Cast(before, j, t, i) :: Cast(after, j, t, i)
  }

  lemma SentKeepsVotes(before: Cluster, after: Cluster)
    requires |after.nodes| == |before.nodes| && before.sent <= after.sent
    ensures KeepsVotes(before, after)
  {
    forall j, t, i | Cast(before, j, t, i) ensures Cast(after, j, t, i) {
      if !(j == i && Called(VoteRequest(t, i)) in before.sent) {
        var r: nat :| Replied(i, t, j, VoteReply(true, r)) in before.sent;
        assert Replied(i, t, j, VoteReply(true, r)) in after.sent;
      }
    }
  }

  lemma LeadersStayWon(before: Cluster, after: Cluster)
    requires KeepsVotes(before, after) && LeadersWon(before) && after.leaders == before.leaders
    ensures LeadersWon(after)
  {
    forall t, i | t in after.leaders && i in after.leaders[t] ensures Won(after, t, i) {
      assert Won(before, t, i);
      var quorum :| IsQuorum(before, quorum) && Unanimous(before, quorum, t, i);
      assert IsQuorum(after, quorum) && Unanimous(after, quorum, t, i);
    }
  }

  lemma CampaignsStayHonest(before: Cluster, after: Cluster, changed: Id)
    requires KeepsVotes(before, after)
    requires forall j | 0 <= j < |before.nodes| :: CampaignHonest(before, j, before.nodes[j])
    requires forall j | 0 <= j < |before.nodes| && j != changed :: after.nodes[j] == before.nodes[j]
    ensures forall j | 0 <= j < |before.nodes| && j != changed :: CampaignHonest(after, j, after.nodes[j])
  {
    forall j | 0 <= j < |before.nodes| && j != changed ensures CampaignHonest(after, j, after.nodes[j]) {
      assert CampaignHonest(before, j, before.nodes[j]);
    }
  }

  /** No message is sent and no node loses its ballot: votes stay bound and unique. */
  lemma QuietKeepsVotes(w: Setup, before: Cluster, after: Cluster)
    requires VotesBind(w, before) && OneVotePerTerm(before)
    requires after.sent == before.sent && |after.nodes| == |before.nodes|
    requires forall j | 0 <= j < |before.nodes| ::
      || Ballot(w, after.nodes[j]) == Ballot(w, before.nodes[j])
      || Ballot(w, after.nodes[j]).0 > Ballot(w, before.nodes[j]).0
    ensures VotesBind(w, after) && OneVotePerTerm(after)
  {
    forall j, t, i ensures Cast(after, j, t, i) <==> Cast(before, j, t, i) {
    }
    forall j, t, i | Cast(after, j, t, i) ensures Bound(w, after, j, t, i) {
      assert Bound(w, before, j, t, i);
    }
  }

  /** Exactly one vote is added, and its node's ballot is on it. */
  lemma NewVoteBinds(w: Setup, before: Cluster, after: Cluster, j: Id, t: nat, i: Id)
    requires VotesBind(w, before) && OneVotePerTerm(before)
    requires |after.nodes| == |before.nodes| && j < |after.nodes| && i < |after.nodes|
    requires forall k: Id, u: nat, a: Id | Cast(after, k, u, a) :: Cast(before, k, u, a) || (k, u, a) == (j, t, i)
    requires forall k | 0 <= k < |after.nodes| && k != j :: after.nodes[k] == before.nodes[k]
    requires Ballot(w, after.nodes[j]) == (t, Some(i))
    requires Ballot(w, before.nodes[j]).0 < t
             || Ballot(w, before.nodes[j]) == (t, None) || Ballot(w, before.nodes[j]) == (t, Some(i))
    ensures VotesBind(w, after) && OneVotePerTerm(after)
  {
    forall k: Id, u: nat, a: Id | Cast(after, k, u, a) ensures Bound(w, after, k, u, a) {
      if Cast(before, k, u, a) {
        assert Bound(w, before, k, u, a);
      }
    }
    forall k, u, a, b | Cast(after, k, u, a) && Cast(after, k, u, b) ensures a == b {
      assert Bound(w, after, k, u, a) && Bound(w, after, k, u, b);
      if k == j && u == t {
      } else {
        assert Cast(before, k, u, a) && Cast(before, k, u, b);
      }
    }
  }

  lemma StartKeeps(w: Setup, c: Cluster, i: Id)
    requires Inv(w, c) && w.codec.RoundTrips()
    ensures Inv(w, Next(w, c, Start(i)))
  {
    var c' := Next(w, c, Start(i));
    if c' != c {
      var t := c.nodes[i].state.term + 1;
      SentKeepsVotes(c, c');
      forall k: Id, u: nat, a: Id | Cast(c', k, u, a) ensures Cast(c, k, u, a) || (k, u, a) == (i, t, i) {
      }
      NewVoteBinds(w, c, c', i, t, i);
      LeadersStayWon(c, c');
      CampaignsStayHonest(c, c', i);
      assert Cast(c', i, t, i);
    }
  }

  lemma ReceiveKeeps(w: Setup, c: Cluster, j: Id, request: Request)
    requires Inv(w, c) && w.codec.RoundTrips() && !w.buggy
    ensures Inv(w, Next(w, c, Receive(j, request)))
  {
    var c' := Next(w, c, Receive(j, request));
    if c.Running(j) && Called(request) in c.sent && request.from != j {
      var (state, reply) := c.nodes[j].state.OnRpc(w.codec, j, request, w.buggy);
      SentKeepsVotes(c, c');
      assert CampaignHonest(c, j, c.nodes[j]);
      if request.VoteRequest? && reply.granted {
        var t, i := request.term, request.from;
        assert Cast(c, i, t, i) && Bound(w, c, i, t, i);
        forall k: Id, u: nat, a: Id | Cast(c', k, u, a) ensures Cast(c, k, u, a) || (k, u, a) == (j, t, i) {
        }
        NewVoteBinds(w, c, c', j, t, i);
      } else {
        forall k: Id, u: nat, a: Id ensures Cast(c', k, u, a) <==> Cast(c, k, u, a) {
        }
        var quiet := c'.(sent := c.sent);
        QuietKeepsVotes(w, c, quiet);
        forall k: Id, u: nat, a: Id ensures Cast(c', k, u, a) <==> Cast(quiet, k, u, a) {
        }
        forall k: Id, u: nat, a: Id | Cast(c', k, u, a) ensures Bound(w, c', k, u, a) {
          assert Bound(w, quiet, k, u, a);
        }
      }
      LeadersStayWon(c, c');
      CampaignsStayHonest(c, c', j);
    }
  }

  lemma AnswerKeeps(w: Setup, c: Cluster, i: Id, message: Message)
    requires Inv(w, c)
    ensures Inv(w, Next(w, c, Answer(i, message)))
  {
    var c' := Next(w, c, Answer(i, message));
    if c' != c {
      SentKeepsVotes(c, c');
      QuietKeepsVotes(w, c, c');
      LeadersStayWon(c, c');
      CampaignsStayHonest(c, c', i);
      assert CampaignHonest(c, i, c.nodes[i]);
    }
  }

  // --- counting votes ---

  ghost function Granters(peers: seq<Id>, replies: map<Id, Reply>): set<Id> {
    set p | p in peers && GrantsVote(replies, p)
  }

  ghost predicate GrantsVote(replies: map<Id, Reply>, p: Id) {
    p in replies && replies[p].VoteReply? && replies[p].granted
  }

  lemma AnswersStep(peers: seq<Id>, replies: map<Id, Reply>)
    requires peers != []
    ensures Answers(peers, replies)[0] == if peers[0] in replies then Some(replies[peers[0]]) else None
    ensures Answers(peers, replies)[1..] == Answers(peers[1..], replies)
  {
  }

  lemma GrantersStep(peers: seq<Id>, replies: map<Id, Reply>)
    requires peers != [] && Distinct(peers)
    ensures |Granters(peers, replies)| ==
      |Granters(peers[1..], replies)| + if GrantsVote(replies, peers[0]) then 1 else 0
  {
    var p, rest := peers[0], Granters(peers[1..], replies);
    assert p !in rest;
    assert Granters(peers, replies) == if GrantsVote(replies, p) then rest + {p} else rest;
  }

  lemma {:induction false} VotesAreGranters(state: NodeState, peers: seq<Id>, replies: map<Id, Reply>)
    requires Distinct(peers)
    requires state.Counted(Answers(peers, replies)).Some?
    ensures |Granters(peers, replies)| == state.Counted(Answers(peers, replies)).value
  {
    if peers == [] {
    } else {
      AnswersStep(peers, replies);
      GrantersStep(peers, replies);
      VotesAreGranters(state, peers[1..], replies);
    }
  }

  lemma {:induction false} PeersDistinct(n: nat, name: Id)
    ensures Distinct(PeersBelow(n, name))
  {
    if n > 0 {
      PeersDistinct(n - 1, name);
      var peers := PeersBelow(n - 1, name);
      assert forall i | 0 <= i < |peers| :: peers[i] in peers;
    }
  }

  /** A campaign that wins has a quorum of votes: its own and those granted. */
  lemma WinnerHasQuorum(c: Cluster, i: Id, state: NodeState, campaign: Campaign)
    requires i < |c.nodes| && c.nodes[i] == Up(state, Some(campaign)) && CampaignHonest(c, i, c.nodes[i])
    requires
      var votes := state.Counted(Answers(PeersBelow(|c.nodes|, i), campaign.replies));
      votes.Some? && 1 + votes.value >= QuorumSize(|c.nodes|)
    ensures Won(c, campaign.term, i)
  {
    var peers := PeersBelow(|c.nodes|, i);
    PeersDistinct(|c.nodes|, i);
    VotesAreGranters(state, peers, campaign.replies);
    var granters := Granters(peers, campaign.replies);
    var quorum := granters + {i};
    assert i !in granters && |quorum| == |granters| + 1;
    assert IsQuorum(c, quorum) && Unanimous(c, quorum, campaign.term, i);
  }

  lemma FinishKeeps(w: Setup, c: Cluster, i: Id)
    requires Inv(w, c) && w.codec.RoundTrips()
    ensures Inv(w, Next(w, c, Finish(i)))
  {
    var c' := Next(w, c, Finish(i));
    if c.Running(i) && c.nodes[i].campaign.Some? {
      var campaign := c.nodes[i].campaign.value;
      var state := c.nodes[i].state;
      var answers := Answers(PeersBelow(|c.nodes|, i), campaign.replies);
      SentKeepsVotes(c, c');
      if state.Counted(answers).None? {
        FirstHigherIsHigher(state, answers);
      }
      QuietKeepsVotes(w, c, c');
      CampaignsStayHonest(c, c', i);
      var c0 := c'.(leaders := c.leaders);
      SentKeepsVotes(c, c0);
      LeadersStayWon(c, c0);
      forall t, a | t in c'.leaders && a in c'.leaders[t] ensures Won(c', t, a) {
        if t in c.leaders && a in c.leaders[t] {
          assert Won(c0, t, a);
          WonElsewhere(c0, c', t, a);
        } else {
          WinnerHasQuorum(c, i, state, campaign);
          WonElsewhere(c, c', t, a);
        }
      }
    }
  }

  lemma WonElsewhere(before: Cluster, after: Cluster, t: nat, i: Id)
    requires Won(before, t, i) && after.sent == before.sent && |after.nodes| == |before.nodes|
    ensures Won(after, t, i)
  {
    var quorum :| IsQuorum(before, quorum) && Unanimous(before, quorum, t, i);
    forall j | j in quorum ensures Cast(after, j, t, i) {
      assert Cast(before, j, t, i);
    }
    assert IsQuorum(after, quorum) && Unanimous(after, quorum, t, i);
  }

  lemma {:induction false} FirstHigherIsHigher(state: NodeState, replies: seq<Option<Reply>>)
    requires state.Counted(replies).None?
    ensures state.FirstHigher(replies) > state.term
  {
    if replies[0].Some? && replies[0].value.term > state.term {
    } else {
      FirstHigherIsHigher(state, replies[1..]);
    }
  }

  lemma OtherStepsKeep(w: Setup, c: Cluster, step: Step)
    requires Inv(w, c) && (step.Beat? || step.Crash? || step.Restart?)
    ensures Inv(w, Next(w, c, step))
  {
    var c' := Next(w, c, step);
    var i := step.node;
    if c' != c {
      SentKeepsVotes(c, c');
      if step.Crash? {
        DurableSurvives(w.codec, c.nodes[i].state.disk, step.disk, c.nodes[i].state.term, c.nodes[i].state.votedFor);
      }
      var quiet := c'.(sent := c.sent);
      QuietKeepsVotes(w, c, quiet);
      forall k: Id, u: nat, a: Id ensures Cast(c', k, u, a) <==> Cast(quiet, k, u, a) {
      }
      forall k: Id, u: nat, a: Id | Cast(c', k, u, a) ensures Bound(w, c', k, u, a) {
        assert Bound(w, quiet, k, u, a);
      }
      LeadersStayWon(c, c');
      CampaignsStayHonest(c, c', i);
      assert CampaignHonest(c, i, c.nodes[i]);
    }
  }

  lemma NextKeeps(w: Setup, c: Cluster, step: Step)
    requires Inv(w, c) && w.codec.RoundTrips() && !w.buggy
    ensures Inv(w, Next(w, c, step))
  {
    match step {
      case Start(i) => StartKeeps(w, c, i);
      case Receive(i, request) => ReceiveKeeps(w, c, i, request);
      case Answer(i, message) => AnswerKeeps(w, c, i, message);
      case Finish(i) => FinishKeeps(w, c, i);
      case _ => OtherStepsKeep(w, c, step);
    }
  }

  lemma {:induction false} ReachedInv(w: Setup, steps: seq<Step>)
    requires w.codec.RoundTrips() && !w.buggy
    ensures Inv(w, Reached(w, steps))
  {
    if steps == [] {
    } else {
      ReachedInv(w, steps[..|steps| - 1]);
      NextKeeps(w, Reached(w, steps[..|steps| - 1]), steps[|steps| - 1]);
    }
  }

  // ---------------------------------------------------------------------------------------------
  // Election Safety
  // ---------------------------------------------------------------------------------------------

  lemma {:induction false} SubsetSize(a: set<Id>, n: nat)
    requires a <= Below(n)
    ensures |a| <= n
  {
    if n == 0 {
      assert a == {};
    } else {
      SubsetSize(a - {n - 1}, n - 1);
    }
  }

  /** Two majorities of one cluster share a node. */
  lemma QuorumsMeet(n: nat, a: set<Id>, b: set<Id>) returns (j: Id)
    requires a <= Below(n) && b <= Below(n)
    requires |a| >= QuorumSize(n) && |b| >= QuorumSize(n)
    ensures j in a && j in b
  {
    if a * b == {} {
      assert |a + b| == |a| + |b|;
      SubsetSize(a + b, n);
    }
    j :| j in a * b;
  }

  /** Election Safety, the first property of Figure 3 of "In Search of an Understandable Consensus
      Algorithm": whatever the number of nodes and whatever the interleaving of calls, losses, campaigns,
      heartbeats, crashes and restarts, no two nodes ever lead the same term. */
  lemma ElectionSafety(w: Setup, steps: seq<Step>, t: nat, a: Id, b: Id)
    requires w.codec.RoundTrips() && !w.buggy
    requires t in Reached(w, steps).leaders
    requires a in Reached(w, steps).leaders[t] && b in Reached(w, steps).leaders[t]
    ensures a == b
  {
    var c := Reached(w, steps);
    ReachedInv(w, steps);
    assert Won(c, t, a) && Won(c, t, b);
    var qa :| IsQuorum(c, qa) && Unanimous(c, qa, t, a);
    var qb :| IsQuorum(c, qb) && Unanimous(c, qb, t, b);
    var j := QuorumsMeet(|c.nodes|, qa, qb);
    assert Cast(c, j, t, a) && Cast(c, j, t, b);
  }

  ghost predicate AllDurable(w: Setup, c: Cluster) {
    forall j | 0 <= j < |c.nodes| :: NodeDurable(w, c.nodes[j])
  }

  lemma NextDurable(w: Setup, c: Cluster, step: Step)
    requires w.codec.RoundTrips() && AllDurable(w, c)
    ensures AllDurable(w, Next(w, c, step))
  {
    var i := step.node;
    var d := Next(w, c, step);
    assert |d.nodes| == |c.nodes| && forall j | 0 <= j < |c.nodes| && j != i :: d.nodes[j] == c.nodes[j];
    if i < |c.nodes| {
      assert NodeDurable(w, c.nodes[i]);
    }
  }

  /** Term and vote are durable on every node, up or down, with the planted bug or without. */
  lemma {:induction false} ReachedDurable(w: Setup, steps: seq<Step>)
    requires w.codec.RoundTrips()
    ensures AllDurable(w, Reached(w, steps))
  {
    if steps != [] {
      ReachedDurable(w, steps[..|steps| - 1]);
      NextDurable(w, Reached(w, steps[..|steps| - 1]), steps[|steps| - 1]);
    }
  }

  /** A node that loses power and restarts comes back with exactly the term and vote it had at its
      last await, whatever else the power cut did to its disk, and as a follower. */
  lemma RestartReloads(w: Setup, steps: seq<Step>, i: Id, disk: DiskState)
    requires w.codec.RoundTrips()
    requires Reached(w, steps).Running(i)
    requires Reached(w, steps).nodes[i].state.disk.MayBecome(disk)
    ensures
      var before := Reached(w, steps).nodes[i].state;
      var after := Next(w, Next(w, Reached(w, steps), Crash(i, disk)), Restart(i)).nodes[i].state;
      after.term == before.term && after.votedFor == before.votedFor && after.role.Follower?
  {
    ReachedDurable(w, steps);
    var state := Reached(w, steps).nodes[i].state;
    DurableSurvives(w.codec, state.disk, disk, state.term, state.votedFor);
  }
}
