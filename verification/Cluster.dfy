/** `ClusterNode` of `src/cluster.rs`: one node's election state, log and replicated table. */
module Cluster {
  import opened Bytes
  import opened SessionTable

  datatype Role = Leader | Follower | Candidate
  datatype NodeState = Joining | Active | Snapshotting | Left

  /** The part of a node that elections change. */
  datatype Ballot = Ballot(role: Role, term: u64, votedFor: Option<u32>, votes: u32, leader: Option<u32>)

  const FRESH: Ballot := Ballot(Follower, 0, None, 0, None)

  function SteppedDown(b: Ballot, term: u64): Ballot { Ballot(Follower, term, None, 0, None) }

  function Elected(b: Ballot, id: u32): Ballot { b.(role := Leader, leader := Some(id), votes := 0) }

  /** The term counter and the vote counter wrap like any fixed-width integer. */
  function ElectionBegun(b: Ballot, id: u32, peers: u32): Ballot {
    var c := Ballot(Candidate, Wrap64(b.term + 1), Some(id), 1, None);
    if peers == 0 then Elected(c, id) else c
  }

  function Majority(peers: u32): u32 { Wrap32(Wrap32(peers + 1) / 2 + 1) }

  /** The sender plays no part. */
  function VoteReceived(b: Ballot, id: u32, peers: u32, term: u64, granted: bool): Ballot {
    if term > b.term then SteppedDown(b, term)
    else if b.role != Candidate || term != b.term || !granted then b
    else
      var c := b.(votes := Wrap32(b.votes + 1));
      if c.votes >= Majority(peers) then Elected(c, id) else c
  }

  /** The index of the next log entry. */
  function NextIndex(log: seq<LogEntry>): u64 {
    Wrap64((if log == [] then 0 else log[|log| - 1].index) + 1)
  }

  /** The log with one more change, made in `term`. */
  function Replicated(log: seq<LogEntry>, term: u64, s: Session): seq<LogEntry> {
    log + [LogEntry(term, NextIndex(log), SessionStateChange, Encode(s))]
  }

  datatype Change = Change(term: u64, session: Session)

  /** A log built from nothing by these changes. */
  function LogOf(changes: seq<Change>): (log: seq<LogEntry>)
    ensures |log| == |changes|
  {
    if changes == [] then []
    else
      var n: nat := |changes| - 1;
      Replicated(LogOf(changes[..n]), changes[n].term, changes[n].session)
  }

  lemma LogGrows(changes: seq<Change>, n: nat, before: seq<LogEntry>)
    requires n + 1 == |changes| && before == LogOf(changes[..n])
    ensures LogOf(changes) == Replicated(before, changes[n].term, changes[n].session)
    ensures LogOf(changes)[..n] == before
  {
  }

  lemma NextNumber(n: nat)
    ensures Wrap64(Wrap64(n) + 1) == Wrap64(n + 1)
  {
  }

  lemma {:induction false} Numbered(changes: seq<Change>, k: nat)
    requires k < |changes|
    ensures LogOf(changes)[k]
         == LogEntry(changes[k].term, Wrap64(k + 1), SessionStateChange, Encode(changes[k].session))
  {
    var n: nat := |changes| - 1;
    LogGrows(changes, n, LogOf(changes[..n]));
    if k < n {
      Numbered(changes[..n], k);
      assert LogOf(changes)[k] == LogOf(changes)[..n][k];
    } else if n > 0 {
      Numbered(changes[..n], n - 1);
      NextNumber(n);
    }
  }

  lemma IndexAt(changes: seq<Change>, k: nat)
    requires k < |changes| && k + 1 < TWO_64
    ensures LogOf(changes)[k].index == k + 1
  {
    Numbered(changes, k);
    Unwrapped(k + 1);
  }

  lemma Unwrapped(n: nat)
    requires n < TWO_64
    ensures Wrap64(n) == n
  {
  }

  /** Its entries are numbered from 1, modulo 2^64, and carry the changes in order. */
  lemma LogNumbered(changes: seq<Change>, k: nat)
    requires k < |changes|
    ensures var e := LogOf(changes)[k];
      && e.index == Wrap64(k + 1) && e.term == changes[k].term && e.entryType == SessionStateChange
      && (Decode(e.data) == Some(changes[k].session) <==> Short(changes[k].session))
  {
    Numbered(changes, k);
    SessionRoundTrip(changes[k].session);
  }

  /** An index only rises. */
  function Risen(was: u64, index: u64): u64 { if index > was then index else was }

  function RisenAll(was: u64, log: seq<LogEntry>): u64 {
    if log == [] then was else Risen(RisenAll(was, log[..|log| - 1]), log[|log| - 1].index)
  }

  lemma {:induction false} RisenThrough(log: seq<LogEntry>)
    requires |log| < TWO_64 && forall k :: 0 <= k < |log| ==> log[k].index == k + 1
    ensures RisenAll(0, log) == |log|
  {
    if log != [] {
      RisenThrough(log[..|log| - 1]);
    }
  }

  /** A node that applies such a log from the start ends at its length, as long as that fits 64 bits. */
  lemma AppliedThrough(changes: seq<Change>)
    requires |changes| < TWO_64
    ensures RisenAll(0, LogOf(changes)) == |changes|
  {
    var log := LogOf(changes);
    forall k | 0 <= k < |log| ensures log[k].index == k + 1 {
      IndexAt(changes, k);
    }
    RisenThrough(log);
  }

  class ClusterNode {
    const id: u32
    const peers: u32
    var role: Role
    var state: NodeState
    var currentTerm: u64
    var votedFor: Option<u32>
    var commitIndex: u64
    var lastApplied: u64
    var log: seq<LogEntry>
    var sessionStates: seq<Session>
    var leaderId: Option<u32>
    var votesReceived: u32

    ghost function View(): Ballot
      reads this
    {
      Ballot(role, currentTerm, votedFor, votesReceived, leaderId)
    }

    constructor (id: u32, peers: u32)
      ensures this.id == id && this.peers == peers && View() == FRESH && state == Joining
      ensures log == [] && sessionStates == [] && commitIndex == lastApplied == 0
    {
      this.id, this.peers := id, peers;
      role, state, currentTerm, votedFor := Follower, Joining, 0, None;
      commitIndex, lastApplied, log, sessionStates := 0, 0, [], [];
      leaderId, votesReceived := None, 0;
    }

    method Start()
      modifies this
      ensures state == Active && View() == ElectionBegun(old(View()), id, peers)
      ensures log == old(log) && sessionStates == old(sessionStates)
    {
      state := Active;
      BeginElection();
    }

    method StepDown(newTerm: u64)
      modifies this`role, this`currentTerm, this`votedFor, this`votesReceived, this`leaderId
      ensures View() == SteppedDown(old(View()), newTerm)
    {
      role := Follower;
      currentTerm := newTerm;
      votedFor := None;
      votesReceived := 0;
      leaderId := None;
    }

    method BecomeLeader()
      modifies this`role, this`votesReceived, this`leaderId
      ensures View() == Elected(old(View()), id)
    {
      role := Leader;
      leaderId := Some(id);
      votesReceived := 0;
    }

    method BeginElection()
      modifies this`role, this`currentTerm, this`votedFor, this`votesReceived, this`leaderId
      ensures View() == ElectionBegun(old(View()), id, peers)
    {
      currentTerm := Wrap64(currentTerm + 1);
      role := Candidate;
      votedFor := Some(id);
      votesReceived := 1;
      leaderId := None;
      if peers == 0 {
        BecomeLeader();
      }
    }

    method ReceiveVote(fromNode: u32, term: u64, granted: bool)
      modifies this`role, this`currentTerm, this`votedFor, this`votesReceived, this`leaderId
      ensures View() == VoteReceived(old(View()), id, peers, term, granted)
    {
      if term > currentTerm {
        StepDown(term);
        return;
      }
      if role != Candidate || term != currentTerm {
        return;
      }
      if granted {
        votesReceived := Wrap32(votesReceived + 1);
        var clusterSize := Wrap32(peers + 1);
        var majority := Wrap32(clusterSize / 2 + 1);
        if votesReceived >= majority {
          BecomeLeader();
        }
      }
    }

    /** Appends a change to the log; nothing is applied yet. */
    method ReplicateSessionState(s: Session)
      modifies this`log
      ensures log == Replicated(old(log), currentTerm, s)
    {
      var index := Wrap64((if |log| > 0 then log[|log| - 1].index else 0) + 1);
      var data := EncodeSessionState(s);
      log := log + [LogEntry(currentTerm, index, SessionStateChange, data)];
    }

    method ApplyLogEntry(e: LogEntry)
      modifies this`sessionStates, this`lastApplied, this`commitIndex
      ensures sessionStates == Apply(old(sessionStates), e)
      ensures lastApplied == Risen(old(lastApplied), e.index) && commitIndex == Risen(old(commitIndex), e.index)
    {
      if e.entryType == SessionStateChange {
        var s := DecodeSessionState(e.data);
        if s.Some? {
          var k := FindSession(sessionStates, s.value.sessionId);
          if k < |sessionStates| {
            sessionStates := sessionStates[k := Updated(sessionStates[k], s.value)];
          } else {
            sessionStates := sessionStates + [s.value];
          }
        }
      }
      if e.index > lastApplied {
        lastApplied := e.index;
      }
      if e.index > commitIndex {
        commitIndex := e.index;
      }
    }

    method CreateSnapshot() returns (buf: seq<byte>)
      ensures buf == SnapshotOf(sessionStates)
    {
      buf := WriteSnapshot(sessionStates);
    }

    /** The table is replaced even when the data is too short to hold a count, and then nothing
        else changes. */
    method RestoreSnapshot(data: seq<byte>)
      modifies this`sessionStates, this`state
      ensures sessionStates == Restore(data)
      ensures state == if |data| < 4 then old(state) else Active
    {
      sessionStates := [];
      if |data| < 4 {
        return;
      }
      sessionStates := ReadSessions(data, 4, FromLe(data[..4]));
      state := Active;
    }
  }
}
