/** What the planted bug of the toy Raft costs (examples/toy_raft.py:95-98): two leaders in one term, in every
    cluster of two nodes or more. The runs that show it are built message by message. */
module PlantedBug {
  import opened Wrappers
  import opened Raft
  import opened Election

  lemma OneMore(w: Setup, steps: seq<Step>, step: Step)
    ensures Reached(w, steps + [step]) == Next(w, Reached(w, steps), step)
  {
    assert (steps + [step])[..|steps|] == steps;
  }

  // ---------------------------------------------------------------------------------------------
  // Two candidates collect every vote
  // ---------------------------------------------------------------------------------------------

  const GRANTED := VoteReply(true, 1)

  /** Node `i` campaigns for term 1 and has had these replies. */
  ghost predicate Campaigns(c: Cluster, i: Id, replies: map<Id, Reply>) {
    && c.Running(i) && Called(VoteRequest(1, i)) in c.sent
    && c.nodes[i].state.role.Candidate? && c.nodes[i].state.term == 1
    && c.nodes[i].campaign == Some(Campaign(1, replies))
  }

  /** All nodes are up, nobody is beyond term 1, and nobody leads. */
  ghost predicate Early(w: Setup, c: Cluster) {
    && w.buggy && |c.nodes| == w.size >= 2 && c.leaders == map[]
    && forall j | 0 <= j < |c.nodes| :: c.nodes[j].Up? && c.nodes[j].state.term <= 1
  }

  /** Both candidates campaign for term 1. */
  ghost predicate Split(w: Setup, c: Cluster, replies0: map<Id, Reply>, replies1: map<Id, Reply>) {
    Early(w, c) && Campaigns(c, 0, replies0) && Campaigns(c, 1, replies1)
  }

  ghost predicate Untouched(c: Cluster, i: Id) {
    c.Running(i) && c.nodes[i].state.term == 0 && c.nodes[i].state.role.Follower? && c.nodes[i].campaign.None?
  }

  lemma StartsFresh(w: Setup)
    requires w.buggy && w.size >= 2
    ensures Early(w, Initial(w)) && Untouched(Initial(w), 0) && Untouched(Initial(w), 1)
  {
  }

  lemma Opens(w: Setup, c: Cluster, i: Id)
    requires Early(w, c) && Untouched(c, i)
    ensures
      var d := Next(w, c, Start(i));
      && Early(w, d) && Campaigns(d, i, map[]) && c.sent <= d.sent
      && forall j | 0 <= j < |c.nodes| && j != i :: d.nodes[j] == c.nodes[j]
  {
  }

  lemma BothStart(w: Setup) returns (steps: seq<Step>)
    requires w.buggy && w.size >= 2
    ensures Split(w, Reached(w, steps), map[], map[])
  {
    var first := Next(w, Initial(w), Start(0));
    StartsFresh(w);
    Opens(w, Initial(w), 0);
    Opens(w, first, 1);
    OneMore(w, [], Start(0));
    OneMore(w, [] + [Start(0)], Start(1));
    steps := [] + [Start(0)] + [Start(1)];
    assert Reached(w, steps) == Next(w, first, Start(1));
  }

  /** A request reaches node `j`, which grants it whatever it has promised before. */
  lemma Grants(w: Setup, c: Cluster, r0: map<Id, Reply>, r1: map<Id, Reply>, i: Id, j: Id)
    requires Split(w, c, r0, r1) && i < 2 && j < w.size && j != i
    ensures
      var d := Next(w, c, Receive(j, VoteRequest(1, i)));
      Split(w, d, r0, r1) && Replied(i, 1, j, GRANTED) in d.sent
  {
  }

  lemma Hears(w: Setup, c: Cluster, r0: map<Id, Reply>, r1: map<Id, Reply>, i: Id, j: Id)
    requires Split(w, c, r0, r1) && i < 2 && Replied(i, 1, j, GRANTED) in c.sent
    ensures
      var d := Next(w, c, Answer(i, Replied(i, 1, j, GRANTED)));
      if i == 0 then Split(w, d, r0[j := GRANTED], r1) else Split(w, d, r0, r1[j := GRANTED])
  {
  }

  ghost predicate GrantedBy(replies: map<Id, Reply>, k: nat, i: Id) {
    forall j: Id | j < k && j != i :: j in replies && replies[j] == GRANTED
  }

  /** The candidates' replies, after one more for `i`. */
  ghost predicate SplitFor(w: Setup, steps: seq<Step>, i: Id, mine: map<Id, Reply>, other: map<Id, Reply>) {
    if i == 0 then Split(w, Reached(w, steps), mine, other) else Split(w, Reached(w, steps), other, mine)
  }

  lemma CollectsOne(w: Setup, steps: seq<Step>, i: Id, mine: map<Id, Reply>, other: map<Id, Reply>, j: Id)
    returns (steps': seq<Step>)
    requires SplitFor(w, steps, i, mine, other) && i < 2 && j < w.size && j != i
    ensures SplitFor(w, steps', i, mine[j := GRANTED], other)
  {
    var r0, r1 := if i == 0 then mine else other, if i == 0 then other else mine;
    var call, answer := Receive(j, VoteRequest(1, i)), Answer(i, Replied(i, 1, j, GRANTED));
    Grants(w, Reached(w, steps), r0, r1, i, j);
    OneMore(w, steps, call);
    Hears(w, Reached(w, steps + [call]), r0, r1, i, j);
    OneMore(w, steps + [call], answer);
    steps' := steps + [call] + [answer];
  }

  /** Candidate `i` has heard from the nodes below `k`. */
  ghost predicate Collected(w: Setup, steps: seq<Step>, i: Id, mine: map<Id, Reply>, other: map<Id, Reply>, k: nat) {
    SplitFor(w, steps, i, mine, other) && GrantedBy(mine, k, i)
  }

  lemma CollectsNext(w: Setup, steps: seq<Step>, i: Id, mine: map<Id, Reply>, other: map<Id, Reply>, k: nat)
    returns (steps': seq<Step>, replies: map<Id, Reply>)
    requires Collected(w, steps, i, mine, other, k) && i < 2 && k < w.size
    ensures Collected(w, steps', i, replies, other, k + 1)
  {
    if k == i {
      return steps, mine;
    }
    steps' := CollectsOne(w, steps, i, mine, other, k);
    replies := mine[k := GRANTED];
  }

  /** It hears from them one after the other. */
  lemma {:induction false} Collects(w: Setup, steps: seq<Step>, i: Id, mine: map<Id, Reply>, other: map<Id, Reply>,
                                    k: nat)
    returns (steps': seq<Step>, replies: map<Id, Reply>)
    requires Collected(w, steps, i, mine, other, 0) && i < 2 && k <= w.size
    ensures Collected(w, steps', i, replies, other, k)
  {
    steps', replies := steps, mine;
    if k > 0 {
      steps', replies := Collects(w, steps, i, mine, other, k - 1);
      steps', replies := CollectsNext(w, steps', i, replies, other, k - 1);
    }
  }

  // ---------------------------------------------------------------------------------------------
  // And both of them win
  // ---------------------------------------------------------------------------------------------

  lemma {:induction false} AllCounted(state: NodeState, peers: seq<Id>, replies: map<Id, Reply>)
    requires state.term == 1 && forall p | p in peers :: p in replies && replies[p] == GRANTED
    ensures state.Counted(Answers(peers, replies)) == Some(|peers|)
  {
    if peers != [] {
      var answers := Answers(peers, replies);
      assert peers[0] in peers && answers[0] == Some(GRANTED) && answers[1..] == Answers(peers[1..], replies);
      AllCounted(state, peers[1..], replies);
    }
  }

  lemma Wins(w: Setup, c: Cluster, i: Id, replies: map<Id, Reply>)
    requires |c.nodes| == w.size >= 2 && i < w.size && Campaigns(c, i, replies) && GrantedBy(replies, w.size, i)
    ensures
      var d := Next(w, c, Finish(i));
      && d.leaders == Elect(c.leaders, 1, i) && d.sent == c.sent && |d.nodes| == |c.nodes|
      && forall j | 0 <= j < |c.nodes| && j != i :: d.nodes[j] == c.nodes[j]
  {
    var peers := PeersBelow(|c.nodes|, i);
    AllCounted(c.nodes[i].state, peers, replies);
    assert |Answers(peers, replies)| == w.size - 1;
  }

  /** With the planted bug, any cluster of two nodes or more can elect two leaders in one term. */
  lemma BuggyElectsTwo(w: Setup) returns (steps: seq<Step>)
    requires w.buggy && w.size >= 2
    ensures 1 in Reached(w, steps).leaders && Reached(w, steps).leaders[1] == {0, 1}
  {
    steps := BothStart(w);
    var r0, r1;
    steps, r0 := Collects(w, steps, 0, map[], map[], w.size);
    steps, r1 := Collects(w, steps, 1, map[], r0, w.size);
    Wins(w, Reached(w, steps), 0, r0);
    OneMore(w, steps, Finish(0));
    steps := steps + [Finish(0)];
    assert Campaigns(Reached(w, steps), 1, r1);
    Wins(w, Reached(w, steps), 1, r1);
    OneMore(w, steps, Finish(1));
    steps := steps + [Finish(1)];
  }

  // ---------------------------------------------------------------------------------------------
  // The exact condition of Election Safety
  // ---------------------------------------------------------------------------------------------

  ghost predicate InRange(w: Setup, c: Cluster) {
    |c.nodes| == w.size && forall t, a | t in c.leaders && a in c.leaders[t] :: a < w.size
  }

  lemma {:induction false} LeadersInRange(w: Setup, steps: seq<Step>)
    ensures InRange(w, Reached(w, steps))
  {
    if steps != [] {
      LeadersInRange(w, steps[..|steps| - 1]);
    }
  }

  /** No run ever has two leaders in one term. */
  ghost predicate Safe(w: Setup) {
    forall steps, t, a, b | t in Reached(w, steps).leaders
      && a in Reached(w, steps).leaders[t] && b in Reached(w, steps).leaders[t] :: a == b
  }

  /** Election Safety holds in all runs exactly without the bug, or in a cluster too small to show it. */
  lemma SafeExactly(w: Setup)
    requires w.codec.RoundTrips()
    ensures Safe(w) <==> !w.buggy || w.size <= 1
  {
    if !w.buggy || w.size <= 1 {
      forall steps, t, a, b | t in Reached(w, steps).leaders
        && a in Reached(w, steps).leaders[t] && b in Reached(w, steps).leaders[t]
        ensures a == b
      {
        if w.buggy {
          LeadersInRange(w, steps);
        } else {
          ElectionSafety(w, steps, t, a, b);
        }
      }
    } else {
      var steps := BuggyElectsTwo(w);
      assert 0 in Reached(w, steps).leaders[1] && 1 in Reached(w, steps).leaders[1];
    }
  }
}
