/** Elections of `src/cluster.rs` are won: by a majority, as soon as it is there, and by no less. */
module ElectionWins {
  import opened Bytes
  import opened Cluster
  import opened Election

  lemma {:induction false} RunAppend(net: Net, a: seq<Action>, b: seq<Action>)
    requires Size(|net.nodes|) && Run(net, a).Some?
    ensures Run(net, a + b) == Run(Run(net, a).value, b)
    decreases a
  {
    if a == [] {
      assert a + b == b;
    } else {
      assert (a + b)[1..] == a[1..] + b;
      RunAppend(Next(net, a[0]), a[1..], b);
    }
  }

  /** Node 0 stands for election, and the nodes 1 to `k` grant it their votes one after the other. */
  function Campaign(k: nat): seq<Action> {
    if k == 0 then [Begin(0)] else Campaign(k - 1) + [Grant(Vote(k, 1), 0), Deliver(Vote(k, 1))]
  }

  /** Where node 0 stands with `votes` votes of `n`. */
  function Standing(n: nat, votes: u32): Ballot {
    if 2 * votes > n then Ballot(Leader, 1, Some(0), 0, Some(0)) else Ballot(Candidate, 1, Some(0), votes, None)
  }

  /** `k` other votes are in, and no more. */
  predicate Counting(net: Net, n: nat, k: nat) {
    && |net.nodes| == n && 0 < n && k < n && k + 1 < TWO_32 && net.nodes[0] == Standing(n, k + 1)
    && (forall v :: v in net.votes ==> v.voter <= k) && (forall v :: v in net.delivered ==> v.voter <= k)
  }

  lemma OneVoteMore(net: Net, n: nat, k: nat)
    requires Size(n) && Counting(net, n, k) && k + 1 < n
    ensures var a, b := Grant(Vote(k + 1, 1), 0), Deliver(Vote(k + 1, 1));
      Run(net, [a, b]).Some? && Counting(Run(net, [a, b]).value, n, k + 1)
  {
    var a, b := Grant(Vote(k + 1, 1), 0), Deliver(Vote(k + 1, 1));
    assert [a, b][1..] == [b] && [b][1..] == [];
    MajorityCount(n);
    var mid := Next(net, a);
    assert Run(net, [a, b]) == Run(mid, [b]) == Run(Next(mid, b), []);
  }

  lemma Candidacy(n: nat)
    requires Size(n)
    ensures Run(Fresh(n), [Begin(0)]).Some? && Counting(Run(Fresh(n), [Begin(0)]).value, n, 0)
  {
    assert [Begin(0)][1..] == [];
    assert Run(Fresh(n), [Begin(0)]) == Run(Next(Fresh(n), Begin(0)), []);
  }

  /** In a cluster of any size, of a node that stands alone against no one, the vote that makes a majority makes the
      leader: with fewer it goes on waiting, and from that one on it leads. */
  lemma {:induction false} MajorityElects(n: nat, k: nat)
    requires Size(n) && k < n
    ensures Run(Fresh(n), Campaign(k)).Some? && Counting(Run(Fresh(n), Campaign(k)).value, n, k)
  {
    if k == 0 {
      Candidacy(n);
    } else {
      MajorityElects(n, k - 1);
      RunAppend(Fresh(n), Campaign(k - 1), [Grant(Vote(k, 1), 0), Deliver(Vote(k, 1))]);
      OneVoteMore(Run(Fresh(n), Campaign(k - 1)).value, n, k - 1);
    }
  }

  /** Whatever a node was, word of a later term makes it a follower of that term that has voted for nobody. */
  lemma LaterTermFollows(b: Ballot, id: u32, peers: u32, term: u64, granted: bool)
    requires term > b.term
    ensures var after := VoteReceived(b, id, peers, term, granted);
      && after.role == Follower && after.term == term && after.votes == 0
      && after.votedFor.None? && after.leader.None?
  {
  }

  /** A reply of an earlier term, a refusal, and any reply to a node that does not stand change nothing. */
  lemma IdleReply(b: Ballot, id: u32, peers: u32, term: u64, granted: bool)
    requires term <= b.term && (term < b.term || !granted || b.role != Candidate)
    ensures VoteReceived(b, id, peers, term, granted) == b
  {
  }
}
