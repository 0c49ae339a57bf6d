/** Elections when a grant may be delivered any number of times, as `receive_vote` of `src/cluster.rs`
    would count it: at most one leader a term exactly in clusters of up to three nodes. */
module RepeatedGrants {
  import opened Bytes
  import opened Cluster
  import opened Election

  /** A run in which grants may arrive more than once. */
  function RunRepeating(net: Net, run: seq<Action>): (r: Option<Net>)
    requires Size(|net.nodes|)
    ensures r.Some? ==> |r.value.nodes| == |net.nodes|
  {
    if run == [] then Some(net)
    else
      var before := RunRepeating(net, run[..|run| - 1]);
      var a := run[|run| - 1];
      if before.None? || !Possible(before.value, a) then None else Some(Next(before.value, a))
  }

  lemma RunOneMore(net: Net, run: seq<Action>, a: Action)
    requires Size(|net.nodes|) && RunRepeating(net, run).Some? && Possible(RunRepeating(net, run).value, a)
    ensures RunRepeating(net, run + [a]) == Some(Next(RunRepeating(net, run).value, a))
  {
    assert (run + [a])[..|run|] == run;
  }

  predicate TwoLeaders(net: Net, i: Node, j: Node, term: u64) {
    i != j && Vote(i, term) in net.leaders && Vote(j, term) in net.leaders
  }

  /** No run ever has two leaders of one term. */
  ghost predicate AlwaysOneLeader(n: nat)
    requires Size(n)
  {
    forall run, i, j, term ::
      RunRepeating(Fresh(n), run).Some? ==> !TwoLeaders(RunRepeating(Fresh(n), run).value, i, j, term)
  }

  // ----- up to three nodes -----

  /** A candidate has its own vote and no other. */
  predicate Alone(net: Net, i: Node)
    requires i < |net.nodes|
  {
    var b := net.nodes[i];
    b.role == Candidate ==> b.votes == 1 && Voted(net, i, b.term, i)
  }

  ghost predicate SmallInv(net: Net) {
    && 1 <= |net.nodes| <= 3
    && (forall i :: 0 <= i < |net.nodes| ==> Alone(net, i))
    && (forall l :: l in net.leaders ==> LeaderOk(net, l))
    && (forall i :: 0 <= i < |net.nodes| && net.nodes[i].role == Leader ==> Vote(i, net.nodes[i].term) in net.leaders)
    && (forall v :: v in net.votes ==> v.voter < |net.nodes|)
  }

  lemma Backed(net: Net, i: Node, v: Node, term: u64)
    requires 1 <= |net.nodes| <= 3 && i < |net.nodes| && v < |net.nodes|
    requires Voted(net, i, term, i) && Voted(net, v, term, i) && (v != i || |net.nodes| == 1)
    ensures LeaderOk(net, Vote(i, term))
  {
    Smaller({i, v}, Supporters(net, i, term));
    if v != i {
      assert |{i, v}| == 2;
    }
  }

  /** The node a step moves: still alone, or a leader with another vote behind it. */
  lemma BeginAlone(net: Net, i: Node)
    requires SmallInv(net) && Possible(net, Begin(i))
    ensures var after := Next(net, Begin(i));
      Alone(after, i) && (after.nodes[i].role == Leader ==> LeaderOk(after, Vote(i, after.nodes[i].term)))
  {
    var after := Next(net, Begin(i));
    if after.nodes[i].role == Leader {
      Backed(after, i, i, after.nodes[i].term);
    }
  }

  lemma SecondVoteWins(b: Ballot, id: u32, n: nat)
    requires 2 <= n <= 3 && b.role == Candidate && b.votes == 1
    ensures VoteReceived(b, id, n - 1, b.term, true) == Elected(b.(votes := 2), id)
  {
  }

  lemma WonBySecond(net: Net, vote: Vote)
    requires SmallInv(net) && Possible(net, Deliver(vote))
    requires var b := net.nodes[net.votes[vote]]; b.role == Candidate && b.term == vote.term
    ensures var c, after := net.votes[vote], Next(net, Deliver(vote));
      after.nodes[c].role == Leader && after.nodes[c].term == vote.term && LeaderOk(after, Vote(c, vote.term))
  {
    var c, after := net.votes[vote], Next(net, Deliver(vote));
    assert Alone(net, c);
    Delivered(net, vote);
    SecondVoteWins(net.nodes[c], c, |net.nodes|);
    assert vote == Vote(vote.voter, vote.term);
    Backed(after, c, vote.voter, vote.term);
  }

  /** A step leaves the node it moves alone or, if it newly leads, with a majority. */
  predicate MovedWell(net: Net, after: Net, i: Node)
    requires |after.nodes| == |net.nodes| && i < |net.nodes|
  {
    && Alone(after, i)
    && after.leaders <= net.leaders + {Vote(i, after.nodes[i].term)}
    && (after.leaders == net.leaders || LeaderOk(after, Vote(i, after.nodes[i].term)))
    && (after.nodes[i].role == Leader ==> Vote(i, after.nodes[i].term) in after.leaders)
    && forall j :: 0 <= j < |net.nodes| && j != i ==> after.nodes[j] == net.nodes[j]
  }

  lemma DeliverMoves(net: Net, vote: Vote)
    requires SmallInv(net) && Possible(net, Deliver(vote))
    ensures MovedWell(net, Next(net, Deliver(vote)), net.votes[vote])
  {
    var c, after := net.votes[vote], Next(net, Deliver(vote));
    var b := net.nodes[c];
    assert Alone(net, c);
    if b.role == Candidate && b.term == vote.term {
      WonBySecond(net, vote);
    } else if after.nodes[c].role == Leader {
      assert Vote(c, b.term) in net.leaders;
      assert after.leaders == net.leaders;
    }
  }

  lemma RejectMoves(net: Net, i: Node, term: u64)
    requires SmallInv(net) && Possible(net, Reject(i, term))
    ensures MovedWell(net, Next(net, Reject(i, term)), i)
  {
    var after := Next(net, Reject(i, term));
    assert Alone(net, i);
    if after.nodes[i].role == Leader {
      assert Vote(i, net.nodes[i].term) in net.leaders;
      assert after.leaders == net.leaders;
    }
  }

  lemma BeginMoves(net: Net, i: Node)
    requires SmallInv(net) && Possible(net, Begin(i))
    ensures MovedWell(net, Next(net, Begin(i)), i)
  {
    BeginAlone(net, i);
  }

  lemma OthersStay(net: Net, a: Action, i: Node)
    requires SmallInv(net) && Possible(net, a) && i < |net.nodes| && Next(net, a).nodes[i] == net.nodes[i]
    ensures Alone(Next(net, a), i)
  {
    assert Alone(net, i);
    if net.nodes[i].role == Candidate {
      VoteStays(net, a, i, net.nodes[i].term, i);
    }
  }

  lemma MovedKeeps(net: Net, a: Action, i: Node)
    requires SmallInv(net) && Possible(net, a) && i < |net.nodes| && |Next(net, a).nodes| == |net.nodes|
    requires MovedWell(net, Next(net, a), i)
    requires forall v :: v in Next(net, a).votes ==> v.voter < |net.nodes|
    ensures SmallInv(Next(net, a))
  {
    var after := Next(net, a);
    forall j | 0 <= j < |after.nodes| ensures Alone(after, j) {
      if j != i {
        OthersStay(net, a, j);
      }
    }
    forall l | l in after.leaders ensures LeaderOk(after, l) {
      if l in net.leaders {
        LeaderStays(net, a, l);
      }
    }
  }

  lemma GrantKeepsSmall(net: Net, vote: Vote, c: Node)
    requires SmallInv(net) && Possible(net, Grant(vote, c))
    ensures SmallInv(Next(net, Grant(vote, c)))
  {
    var a := Grant(vote, c);
    var after := Next(net, a);
    forall j | 0 <= j < |after.nodes| ensures Alone(after, j) {
      OthersStay(net, a, j);
    }
    forall l | l in after.leaders ensures LeaderOk(after, l) {
      LeaderStays(net, a, l);
    }
  }

  lemma SmallStep(net: Net, a: Action)
    requires SmallInv(net) && Possible(net, a)
    ensures SmallInv(Next(net, a))
  {
    match a
    case Begin(i) =>
      BeginMoves(net, i);
      MovedKeeps(net, a, i);
    case Grant(vote, c) => GrantKeepsSmall(net, vote, c);
    case Deliver(vote) =>
      DeliverMoves(net, vote);
      MovedKeeps(net, a, net.votes[vote]);
    case Reject(i, term) =>
      RejectMoves(net, i, term);
      MovedKeeps(net, a, i);
  }

  lemma {:induction false} SmallRun(n: nat, run: seq<Action>)
    requires 1 <= n <= 3 && RunRepeating(Fresh(n), run).Some?
    ensures SmallInv(RunRepeating(Fresh(n), run).value)
  {
    if run != [] {
      var k: nat := |run| - 1;
      SmallRun(n, run[..k]);
      SmallStep(RunRepeating(Fresh(n), run[..k]).value, run[k]);
    }
  }

  lemma SmallClustersSafe(n: nat)
    requires 1 <= n <= 3
    ensures AlwaysOneLeader(n)
  {
    forall run, i, j, term | RunRepeating(Fresh(n), run).Some?
      ensures !TwoLeaders(RunRepeating(Fresh(n), run).value, i, j, term)
    {
      SmallRun(n, run);
      var net := RunRepeating(Fresh(n), run).value;
      if TwoLeaders(net, i, j, term) {
        OneMajority(net, i, j, term);
      }
    }
  }

  // ----- four nodes and more -----

  /** A grant delivered over and over again elects its candidate, whoever else stands. */
  lemma {:induction false} Pump(n: nat, run: seq<Action>, vote: Vote, missing: nat) returns (longer: seq<Action>)
    requires Size(n) && RunRepeating(Fresh(n), run).Some?
    requires var net := RunRepeating(Fresh(n), run).value;
      && Possible(net, Deliver(vote)) && missing > 0
      && var b := net.nodes[net.votes[vote]];
        b.role == Candidate && b.term == vote.term && b.votes + missing == Majority(n - 1)
    ensures RunRepeating(Fresh(n), longer).Some?
    ensures var net, end := RunRepeating(Fresh(n), run).value, RunRepeating(Fresh(n), longer).value;
      && end.votes == net.votes && net.leaders <= end.leaders && Vote(net.votes[vote], vote.term) in end.leaders
      && forall j :: 0 <= j < n && j != net.votes[vote] ==> end.nodes[j] == net.nodes[j]
    decreases missing
  {
    RunOneMore(Fresh(n), run, Deliver(vote));
    longer := run + [Deliver(vote)];
    Delivered(RunRepeating(Fresh(n), run).value, vote);
    if missing > 1 {
      longer := Pump(n, longer, vote, missing - 1);
    }
  }

  /** Nodes 0 and 1 stand for term 1, and nodes 2 and 3 vote for one each. */
  lemma Race(n: nat) returns (run: seq<Action>)
    requires Size(n) && n >= 4
    ensures RunRepeating(Fresh(n), run).Some?
    ensures var net := RunRepeating(Fresh(n), run).value;
      && Possible(net, Deliver(Vote(2, 1))) && net.votes[Vote(2, 1)] == 0
      && Possible(net, Deliver(Vote(3, 1))) && net.votes[Vote(3, 1)] == 1
      && net.nodes[0].role == Candidate && net.nodes[0].term == 1 && net.nodes[0].votes == 1
      && net.nodes[1].role == Candidate && net.nodes[1].term == 1 && net.nodes[1].votes == 1
  {
    var net := Fresh(n);
    run := [];
    RunOneMore(Fresh(n), run, Begin(0));
    run := run + [Begin(0)];
    RunOneMore(Fresh(n), run, Begin(1));
    run := run + [Begin(1)];
    RunOneMore(Fresh(n), run, Grant(Vote(2, 1), 0));
    run := run + [Grant(Vote(2, 1), 0)];
    RunOneMore(Fresh(n), run, Grant(Vote(3, 1), 1));
    run := run + [Grant(Vote(3, 1), 1)];
  }

  lemma LargeClustersFail(n: nat) returns (run: seq<Action>)
    requires Size(n) && n >= 4
    ensures RunRepeating(Fresh(n), run).Some? && TwoLeaders(RunRepeating(Fresh(n), run).value, 0, 1, 1)
  {
    MajorityCount(n);
    run := Race(n);
    run := Pump(n, run, Vote(2, 1), Majority(n - 1) - 1);
    run := Pump(n, run, Vote(3, 1), Majority(n - 1) - 1);
  }

  /** When grants may be delivered again, no run of a cluster has two leaders of one term if and only if
      the cluster has at most three nodes. */
  lemma RepeatedGrantsSafeUpToThree(n: nat)
    requires Size(n)
    ensures AlwaysOneLeader(n) <==> n <= 3
  {
    if n <= 3 {
      SmallClustersSafe(n);
    } else {
      var run := LargeClustersFail(n);
      assert TwoLeaders(RunRepeating(Fresh(n), run).value, 0, 1, 1);
    }
  }
}
