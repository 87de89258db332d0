/** A cluster can elect a leader (examples/toy_raft.py:88-162), bug or no bug: the run in which one node campaigns,
    all others grant their votes, and every reply arrives. */
module Leading {
  import opened Wrappers
  import opened Raft
  import opened Election
  import opened PlantedBug

  /** Node 0 campaigns for term 1; the nodes from `k` on have not heard of it. */
  ghost predicate Canvassed(w: Setup, c: Cluster, replies: map<Id, Reply>, k: nat) {
    && |c.nodes| == w.size >= 1 && c.leaders == map[] && Campaigns(c, 0, replies)
    && (forall j | 0 <= j < |c.nodes| :: c.nodes[j].Up?)
    && (forall j: Id | k <= j < |c.nodes| && j != 0 :: Untouched(c, j))
    && GrantedBy(replies, k, 0)
  }

  lemma Begins(w: Setup)
    requires w.size >= 1
    ensures Canvassed(w, Next(w, Initial(w), Start(0)), map[], 0)
  {
    assert Untouched(Initial(w), 0);
  }

  /** The next node hears of the campaign, grants its vote, and its reply arrives. */
  lemma Votes(w: Setup, c: Cluster, replies: map<Id, Reply>, k: nat)
    requires Canvassed(w, c, replies, k) && 0 < k < w.size
    ensures
      var d := Next(w, c, Receive(k, VoteRequest(1, 0)));
      var e := Next(w, d, Answer(0, Replied(0, 1, k, GRANTED)));
      Canvassed(w, e, replies[k := GRANTED], k + 1)
  {
    assert Untouched(c, k);
    var d := Next(w, c, Receive(k, VoteRequest(1, 0)));
    assert Replied(0, 1, k, GRANTED) in d.sent && Campaigns(d, 0, replies);
    var e := Next(w, d, Answer(0, Replied(0, 1, k, GRANTED)));
    assert Campaigns(e, 0, replies[k := GRANTED]);
    forall j: Id | k < j < |c.nodes| ensures Untouched(e, j) {
      assert Untouched(c, j) && d.nodes[j] == c.nodes[j] && e.nodes[j] == d.nodes[j];
    }
  }

  lemma {:induction false} Canvasses(w: Setup, k: nat) returns (steps: seq<Step>, replies: map<Id, Reply>)
    requires w.size >= 1 && k <= w.size
    ensures Canvassed(w, Reached(w, steps), replies, k)
  {
    if k == 0 {
      Begins(w);
      OneMore(w, [], Start(0));
      return [] + [Start(0)], map[];
    }
    steps, replies := Canvasses(w, k - 1);
    if k > 1 {
      var call, answer := Receive(k - 1, VoteRequest(1, 0)), Answer(0, Replied(0, 1, k - 1, GRANTED));
      Votes(w, Reached(w, steps), replies, k - 1);
      OneMore(w, steps, call);
      OneMore(w, steps + [call], answer);
      steps, replies := steps + [call] + [answer], replies[k - 1 := GRANTED];
    }
  }

  lemma WinsAlone(w: Setup, c: Cluster, replies: map<Id, Reply>)
    requires Canvassed(w, c, replies, w.size)
    ensures Next(w, c, Finish(0)).leaders == map[1 := {0}]
  {
    var peers := PeersBelow(|c.nodes|, 0);
    AllCounted(c.nodes[0].state, peers, replies);
    assert |Answers(peers, replies)| == w.size - 1;
    assert {} + {0} == {0} && Elect(map[], 1, 0) == map[1 := {0}];
    var d := Next(w, c, Finish(0));
    assert d.leaders == Elect(c.leaders, 1, 0);
  }

  /** Safety is not bought with silence: every cluster of any size has a run that elects a leader. */
  lemma SomebodyCanLead(w: Setup) returns (steps: seq<Step>)
    requires w.size >= 1
    ensures Reached(w, steps).leaders == map[1 := {0}]
  {
    var replies;
    steps, replies := Canvasses(w, w.size);
    WinsAlone(w, Reached(w, steps), replies);
    OneMore(w, steps, Finish(0));
    steps := steps + [Finish(0)];
  }
}
