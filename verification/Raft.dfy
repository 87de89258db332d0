/** One node of the toy Raft election (examples/toy_raft.py:28-162): each method is the code between
    two awaits, which runs without interruption. */
module Raft {
  import opened Wrappers
  import opened Disks

  /** Nodes are numbered; a node's peers are all the others. */
  type Id = nat

  datatype Role = Follower | Candidate | Leader

  const STATE_FILE := "raft-state"

  /** Serialization of term and vote to bytes and back; a library, known only to round-trip. */
  datatype Codec = Codec(dumps: (nat, Option<Id>) -> Bytes, loads: Bytes -> (nat, Option<Id>))
  {
    ghost predicate RoundTrips() {
      forall term: nat, vote :: loads(dumps(term, vote)) == (term, vote)
    }

    /** Term and vote as a starting node finds them on its disk. */
    function Load(disk: DiskState): (nat, Option<Id>) {
      match disk.Visible(STATE_FILE)
      case None => (0, None)
      case Some(data) => loads(data)
    }

    function Persist(disk: DiskState, term: nat, vote: Option<Id>): DiskState {
      disk.Write(STATE_FILE, dumps(term, vote)).Fsync(STATE_FILE)
    }

    /** The disk durably holds this term and vote: no power cut can change them. */
    ghost predicate Durable(disk: DiskState, term: nat, vote: Option<Id>) {
      STATE_FILE !in disk.buffered && Load(disk) == (term, vote)
    }
  }

  /** Persisting makes term and vote durable; nothing durable is lost in a power cut. */
  lemma PersistIsDurable(codec: Codec, disk: DiskState, term: nat, vote: Option<Id>)
    requires codec.RoundTrips()
    ensures codec.Durable(codec.Persist(disk, term, vote), term, vote)
  {
  }

  lemma DurableSurvives(codec: Codec, disk: DiskState, after: DiskState, term: nat, vote: Option<Id>)
    requires codec.Durable(disk, term, vote) && disk.MayBecome(after)
    ensures codec.Durable(after, term, vote)
  {
    assert disk.MayKeep(STATE_FILE, Lookup(after.synced, STATE_FILE));
  }

  datatype Request =
    | VoteRequest(term: nat, from: Id)
    | Heartbeat(term: nat, from: Id)

  datatype Reply =
    | VoteReply(granted: bool, term: nat)
    | HeartbeatReply(ok: bool, term: nat)

  /** Everything a node keeps: volatile fields and its disk. */
  datatype NodeState = NodeState(term: nat, votedFor: Option<Id>, role: Role, disk: DiskState)
  {
    function Persisted(codec: Codec): NodeState {
      this.(disk := codec.Persist(disk, term, votedFor))
    }

    /** A higher term makes a node a follower that has not voted. */
    function Adopt(codec: Codec, newTerm: nat): NodeState {
      if newTerm > term then
        this.(term := newTerm, votedFor := None, role := Follower).Persisted(codec)
      else this
    }

    function Grants(request: Request, buggy: bool): bool
      requires request.VoteRequest?
    {
      if buggy then request.term >= term
      else request.term == term && (votedFor == None || votedFor == Some(request.from))
    }

    function OnRpc(codec: Codec, name: Id, request: Request, buggy: bool): (NodeState, Reply) {
      var node := Adopt(codec, request.term);
      match request
      case VoteRequest(term, from) =>
        if node.Grants(request, buggy) then
          (node.(votedFor := Some(from)).Persisted(codec), VoteReply(true, node.term))
        else (node, VoteReply(false, node.term))
      case Heartbeat(term, from) =>
        if term >= node.term then
          (if from != name then node.(role := Follower) else node, HeartbeatReply(true, node.term))
        else (node, HeartbeatReply(false, node.term))
    }

    /** A campaign opens with a new term and the node's vote for itself. */
    function Campaigning(codec: Codec, name: Id): NodeState {
      this.(term := term + 1, role := Candidate, votedFor := Some(name)).Persisted(codec)
    }

    /** Replies are read in order, up to the first one of a higher term, which ends the campaign. */
    function Counted(replies: seq<Option<Reply>>): Option<nat> {
      if replies == [] then Some(0) else
      match replies[0]
      case None => Counted(replies[1..])
      case Some(reply) =>
        if reply.term > term then None else
        match Counted(replies[1..])
        case None => None
        case Some(votes) => Some(votes + if reply.VoteReply? && reply.granted then 1 else 0)
    }

    function FirstHigher(replies: seq<Option<Reply>>): nat
      requires Counted(replies).None?
    {
      if replies[0].Some? && replies[0].value.term > term then replies[0].value.term
      else FirstHigher(replies[1..])
    }

    /** The end of a campaign for `campaignTerm`, and whether the node won it. */
    function Concluded(codec: Codec, replies: seq<Option<Reply>>, campaignTerm: nat): (NodeState, bool) {
      match Counted(replies)
      case None =>
        (this.(term := FirstHigher(replies), role := Follower, votedFor := None).Persisted(codec), false)
      case Some(votes) =>
        if role.Candidate? && term == campaignTerm && 1 + votes >= Majority(|replies|) then
          (this.(role := Leader), true)
        else (this, false)
    }
  }

  function Majority(peers: nat): nat {
    (peers + 1) / 2 + 1
  }

  function Restored(codec: Codec, disk: DiskState): NodeState {
    var (term, vote) := codec.Load(disk);
    NodeState(term, vote, Follower, disk)
  }

  class RaftNode {
    const codec: Codec
    const name: Id
    const buggy: bool
    const disk: SimDisk
    var term: nat
    var votedFor: Option<Id>
    var role: Role

    function State(): NodeState
      reads this, disk
    {
      NodeState(term, votedFor, role, disk.State())
    }

    /** Starting or restarting: term and vote come from the host's disk. */
    constructor (codec: Codec, name: Id, disk: SimDisk, buggy: bool)
      ensures this.disk == disk && this.codec == codec && this.name == name && this.buggy == buggy
      ensures State() == Restored(codec, disk.State())
    {
      this.codec, this.name, this.disk, this.buggy := codec, name, disk, buggy;
      role := Follower;
      term, votedFor := 0, None;
      new;
      var present := disk.Exists(STATE_FILE);
      if present {
        var data := disk.Read(STATE_FILE);
        var (t, v) := codec.loads(data.value);
        term, votedFor := t, v;
      }
    }

    method Persist()
      modifies disk
      ensures State() == old(State()).Persisted(codec)
    {
      disk.Write(STATE_FILE, codec.dumps(term, votedFor));
      disk.Fsync(STATE_FILE);
    }

    method OnRpc(request: Request) returns (reply: Reply)
      modifies this, disk
      ensures (State(), reply) == old(State()).OnRpc(codec, name, request, buggy)
    {
      if request.term > term {
        term := request.term;
        votedFor := None;
        role := Follower;
        Persist();
      }
      if request.VoteRequest? {
        var granted: bool;
        if buggy {
          granted := request.term >= term;
        } else {
          granted := request.term == term && (votedFor == None || votedFor == Some(request.from));
        }
        if granted {
          votedFor := Some(request.from);
          Persist();
        }
        return VoteReply(granted, term);
      }
      if request.term >= term {
        if request.from != name {
          role := Follower;
        }
        return HeartbeatReply(true, term);
      }
      return HeartbeatReply(false, term);
    }

    /** The part of `campaign` before the replies are awaited. */
    method OpenCampaign() returns (request: Request)
      modifies this, disk
      ensures State() == old(State()).Campaigning(codec, name)
      ensures request == VoteRequest(term, name)
    {
      term := term + 1;
      role := Candidate;
      votedFor := Some(name);
      Persist();
      return VoteRequest(term, name);
    }

    /** The part of `campaign` after the replies are in; a missing reply is a failed call. */
    method CloseCampaign(replies: seq<Option<Reply>>, campaignTerm: nat) returns (elected: bool)
      modifies this, disk
      ensures (State(), elected) == old(State()).Concluded(codec, replies, campaignTerm)
    {
      var votes := 1;
      var i := 0;
      while i < |replies|
        invariant i <= |replies| && State() == old(State())
        invariant match State().Counted(replies[i..])
                  case None => State().Counted(replies).None?
                               && State().FirstHigher(replies) == State().FirstHigher(replies[i..])
                  case Some(more) => State().Counted(replies) == Some(votes - 1 + more)
      {
        var reply := replies[i];
        assert replies[i..][1..] == replies[i + 1..];
        if reply.Some? {
          if reply.value.term > term {
            term := reply.value.term;
            role := Follower;
            votedFor := None;
            Persist();
            return false;
          }
          if reply.value.VoteReply? && reply.value.granted {
            votes := votes + 1;
          }
        }
        i := i + 1;
      }
      if role.Candidate? && term == campaignTerm && votes >= Majority(|replies|) {
        role := Leader;
        return true;
      }
      return false;
    }
  }
}
