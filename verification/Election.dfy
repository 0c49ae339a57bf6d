/** Elections in a fixed cluster of `src/cluster.rs` nodes.

    The source answers no vote requests and `receive_vote` ignores its sender, so two rules are
    guards of the steps here: a node votes at most once in a term, its own candidacy included
    (section 5.2 of the Raft extended paper), and each grant is delivered at most once. Grants may be
    delayed without bound, reordered and lost. `RepeatedGrants` drops the second rule. */
module Election {
  import opened Bytes
  import opened Cluster

  type Node = nat

  datatype Vote = Vote(voter: Node, term: u64)

  /** `votes` are all votes ever cast, `leaders` all pairs of a node and a term it led. */
  datatype Net = Net(nodes: seq<Ballot>, votes: map<Vote, Node>, delivered: set<Vote>, leaders: set<Vote>)

  datatype Action =
    | Begin(node: Node)
    | Grant(vote: Vote, candidate: Node)
    | Deliver(vote: Vote)
    | Reject(node: Node, term: u64)

  predicate Size(n: nat) { 1 <= n < TWO_32 }

  function Fresh(n: nat): Net { Net(seq(n, _ => FRESH), map[], {}, {}) }

  /** Node `i` moves to `b`. */
  function Moved(net: Net, i: Node, b: Ballot): Net
    requires i < |net.nodes|
  {
    net.(nodes := net.nodes[i := b],
         leaders := net.leaders + if b.role == Leader then {Vote(i, b.term)} else {})
  }

  /** What a step needs, repeated deliveries allowed. */
  predicate Possible(net: Net, a: Action) {
    match a
    case Begin(i) => i < |net.nodes| && Vote(i, Wrap64(net.nodes[i].term + 1)) !in net.votes
    case Grant(vote, c) => vote.voter < |net.nodes| && c < |net.nodes| && c != vote.voter && vote !in net.votes
    case Deliver(vote) => vote in net.votes && net.votes[vote] < |net.nodes| && net.votes[vote] != vote.voter
    case Reject(i, _) => i < |net.nodes|
  }

  /** Each grant is delivered at most once. */
  predicate Enabled(net: Net, a: Action) {
    Possible(net, a) && (a.Deliver? ==> a.vote !in net.delivered)
  }

  function Next(net: Net, a: Action): Net
    requires Size(|net.nodes|) && Possible(net, a)
  {
    var peers: u32 := |net.nodes| - 1;
    match a
    case Begin(i) =>
      var b := ElectionBegun(net.nodes[i], i, peers);
      Moved(net, i, b).(votes := net.votes[Vote(i, b.term) := i])
    case Grant(vote, c) => net.(votes := net.votes[vote := c])
    case Deliver(vote) =>
      var c := net.votes[vote];
      Moved(net, c, VoteReceived(net.nodes[c], c, peers, vote.term, true)).(delivered := net.delivered + {vote})
    case Reject(i, term) => Moved(net, i, VoteReceived(net.nodes[i], i, peers, term, false))
  }

  /** A run: every action must be enabled when it happens. */
  function Run(net: Net, run: seq<Action>): (r: Option<Net>)
    requires Size(|net.nodes|)
    ensures r.Some? ==> |r.value.nodes| == |net.nodes|
    decreases run
  {
    if run == [] then Some(net)
    else if Enabled(net, run[0]) then Run(Next(net, run[0]), run[1..])
    else None
  }

  // ----- who supports whom -----

  function Range(n: nat): (s: set<nat>)
    ensures forall k: nat :: k in s <==> k < n
    ensures |s| == n
  {
    if n == 0 then {} else Range(n - 1) + {n - 1}
  }

  predicate Voted(net: Net, v: Node, term: u64, c: Node) {
    Vote(v, term) in net.votes && net.votes[Vote(v, term)] == c
  }

  /** Everyone who voted for `c` in `term`. */
  function Supporters(net: Net, c: Node, term: u64): set<Node> {
    set v | v in Range(|net.nodes|) && Voted(net, v, term, c)
  }

  /** Those among them whose vote `c` has counted. */
  function Counted(net: Net, c: Node, term: u64): set<Node> {
    set v | v in Range(|net.nodes|) && Voted(net, v, term, c) && (v == c || Vote(v, term) in net.delivered)
  }

  predicate MoreThanHalf(net: Net, s: set<Node>) { 2 * |s| > |net.nodes| }

  predicate CandidateOk(net: Net, i: Node)
    requires i < |net.nodes|
  {
    var b := net.nodes[i];
    b.role == Candidate ==> 1 <= b.votes <= |Counted(net, i, b.term)|
  }

  predicate LeaderOk(net: Net, l: Vote) { MoreThanHalf(net, Supporters(net, l.voter, l.term)) }

  /** No candidate's counter exceeds the votes it received, every leader there ever was has a majority
      behind it, and no leader is missing from the record. */
  ghost predicate Inv(net: Net) {
    && Size(|net.nodes|)
    && (forall i :: 0 <= i < |net.nodes| ==> CandidateOk(net, i))
    && (forall l :: l in net.leaders ==> LeaderOk(net, l))
    && (forall i :: 0 <= i < |net.nodes| && net.nodes[i].role == Leader ==> Vote(i, net.nodes[i].term) in net.leaders)
    && (forall v :: v in net.votes ==> v.voter < |net.nodes|)
  }

  lemma Smaller(a: set<Node>, b: set<Node>)
    requires a <= b
    ensures |a| <= |b|
  {
    assert b == a + (b - a);
  }

  /** Votes are only ever added, so support only grows. */
  lemma SupportGrows(net: Net, a: Action, c: Node, term: u64)
    requires Size(|net.nodes|) && Possible(net, a)
    ensures Supporters(net, c, term) <= Supporters(Next(net, a), c, term)
    ensures Counted(net, c, term) <= Counted(Next(net, a), c, term)
  {
    forall v | v in Supporters(net, c, term) ensures Voted(Next(net, a), v, term, c) {
      VoteStays(net, a, v, term, c);
    }
  }

  lemma VoteStays(net: Net, a: Action, v: Node, term: u64, c: Node)
    requires Size(|net.nodes|) && Possible(net, a) && Voted(net, v, term, c)
    ensures Voted(Next(net, a), v, term, c)
    ensures Vote(v, term) in net.delivered ==> Vote(v, term) in Next(net, a).delivered
    ensures |Next(net, a).nodes| == |net.nodes|
  {
  }

  lemma LeaderStays(net: Net, a: Action, l: Vote)
    requires Size(|net.nodes|) && Possible(net, a) && LeaderOk(net, l)
    ensures LeaderOk(Next(net, a), l)
  {
    SupportGrows(net, a, l.voter, l.term);
    Smaller(Supporters(net, l.voter, l.term), Supporters(Next(net, a), l.voter, l.term));
  }

  lemma CandidateStays(net: Net, a: Action, i: Node)
    requires Size(|net.nodes|) && Possible(net, a) && i < |net.nodes| && CandidateOk(net, i)
    requires var b, c := net.nodes[i], Next(net, a).nodes[i];
      c.role == Candidate ==> b.role == Candidate && c.term == b.term && c.votes == b.votes
    ensures CandidateOk(Next(net, a), i)
  {
    var b := net.nodes[i];
    SupportGrows(net, a, i, b.term);
    Smaller(Counted(net, i, b.term), Counted(Next(net, a), i, b.term));
  }

  lemma CountedSupport(net: Net, c: Node, term: u64)
    ensures |Counted(net, c, term)| <= |Supporters(net, c, term)| <= |net.nodes|
  {
    Smaller(Counted(net, c, term), Supporters(net, c, term));
    Smaller(Supporters(net, c, term), Range(|net.nodes|));
  }

  /** A delivered grant is one the candidate had not counted before. */
  lemma DeliveryCounts(net: Net, vote: Vote)
    requires Size(|net.nodes|) && Enabled(net, Deliver(vote)) && vote.voter < |net.nodes|
    ensures var c := net.votes[vote];
      |Counted(Next(net, Deliver(vote)), c, vote.term)| >= |Counted(net, c, vote.term)| + 1
  {
    var c, after := net.votes[vote], Next(net, Deliver(vote));
    SupportGrows(net, Deliver(vote), c, vote.term);
    assert vote == Vote(vote.voter, vote.term);
    assert vote.voter in Counted(after, c, vote.term) && vote.voter !in Counted(net, c, vote.term);
    Smaller(Counted(net, c, vote.term) + {vote.voter}, Counted(after, c, vote.term));
  }

  lemma MajorityCount(n: nat)
    requires Size(n)
    ensures Majority(n - 1) == n / 2 + 1
  {
  }

  /** What counting one grant does to a candidate. */
  lemma GrantCounted(b: Ballot, id: u32, n: nat, support: nat)
    requires Size(n) && b.role == Candidate && 1 <= b.votes < support <= n
    ensures var c := VoteReceived(b, id, n - 1, b.term, true);
      && c.term == b.term
      && (c.role == Candidate ==> 1 <= c.votes <= support)
      && (c.role == Leader ==> 2 * support > n)
  {
    MajorityCount(n);
  }

  lemma Granted(after: Net, c: Node, d: Ballot, support: nat)
    requires c < |after.nodes| && d == after.nodes[c]
    requires support == |Counted(after, c, d.term)| <= |Supporters(after, c, d.term)|
    requires (d.role == Candidate ==> 1 <= d.votes <= support) && (d.role == Leader ==> 2 * support > |after.nodes|)
    ensures CandidateOk(after, c) && (after.nodes[c].role == Leader ==> LeaderOk(after, Vote(c, after.nodes[c].term)))
  {
  }

  lemma Delivered(net: Net, vote: Vote)
    requires Size(|net.nodes|) && Possible(net, Deliver(vote))
    ensures var c, after := net.votes[vote], Next(net, Deliver(vote));
      |after.nodes| == |net.nodes| && after.nodes[c] == VoteReceived(net.nodes[c], c, |net.nodes| - 1, vote.term, true)
  {
  }

  /** The candidate a grant reaches keeps an honest counter, or wins with a majority behind it. */
  lemma GrantKeeps(net: Net, vote: Vote)
    requires Inv(net) && Enabled(net, Deliver(vote))
    requires var b := net.nodes[net.votes[vote]]; b.role == Candidate && b.term == vote.term
    ensures var c, after := net.votes[vote], Next(net, Deliver(vote));
      CandidateOk(after, c) && (after.nodes[c].role == Leader ==> LeaderOk(after, Vote(c, after.nodes[c].term)))
  {
    var c, after := net.votes[vote], Next(net, Deliver(vote));
    var n, b, support := |net.nodes|, net.nodes[c], |Counted(after, c, vote.term)|;
    assert CandidateOk(net, c);
    DeliveryCounts(net, vote);
    CountedSupport(after, c, vote.term);
    Delivered(net, vote);
    GrantCounted(b, c, n, support);
    Granted(after, c, VoteReceived(b, c, n - 1, b.term, true), support);
  }

  lemma BeginKeeps(net: Net, i: Node)
    requires Inv(net) && Enabled(net, Begin(i))
    ensures var after := Next(net, Begin(i));
      CandidateOk(after, i) && (after.nodes[i].role == Leader ==> LeaderOk(after, Vote(i, after.nodes[i].term)))
  {
    var after := Next(net, Begin(i));
    var term := after.nodes[i].term;
    assert i in Counted(after, i, term);
    Smaller({i}, Counted(after, i, term));
    CountedSupport(after, i, term);
  }

  /** The node an action moves, if any. */
  function Mover(net: Net, a: Action): Option<Node>
    requires Enabled(net, a)
  {
    match a
    case Begin(i) => Some(i)
    case Grant(_, _) => None
    case Deliver(vote) => Some(net.votes[vote])
    case Reject(i, _) => Some(i)
  }

  /** A node that only stepped down or stood still is as well supported as before. */
  lemma IdleKeeps(net: Net, a: Action, i: Node)
    requires Inv(net) && Enabled(net, a) && i < |net.nodes|
    requires var b, c := net.nodes[i], Next(net, a).nodes[i]; c == b || c.role == Follower
    ensures var after := Next(net, a);
      CandidateOk(after, i) && (after.nodes[i].role == Leader ==> LeaderOk(after, Vote(i, after.nodes[i].term)))
  {
    assert CandidateOk(net, i);
    CandidateStays(net, a, i);
    if Next(net, a).nodes[i].role == Leader {
      assert Vote(i, net.nodes[i].term) in net.leaders;
      LeaderStays(net, a, Vote(i, net.nodes[i].term));
    }
  }

  lemma MoverKeeps(net: Net, a: Action)
    requires Inv(net) && Enabled(net, a) && Mover(net, a).Some?
    ensures var i, after := Mover(net, a).value, Next(net, a);
      CandidateOk(after, i) && (after.nodes[i].role == Leader ==> LeaderOk(after, Vote(i, after.nodes[i].term)))
  {
    var i, after := Mover(net, a).value, Next(net, a);
    match a
    case Begin(_) => BeginKeeps(net, i);
    case Grant(_, _) =>
    case Deliver(vote) =>
      if net.nodes[i].role == Candidate && net.nodes[i].term == vote.term {
        GrantKeeps(net, vote);
      } else {
        IdleKeeps(net, a, i);
      }
    case Reject(_, _) => IdleKeeps(net, a, i);
  }

  lemma RecordKeeps(net: Net, a: Action)
    requires Inv(net) && Enabled(net, a)
    ensures var after := Next(net, a);
      && |after.nodes| == |net.nodes|
      && (forall v :: v in after.votes ==> v.voter < |after.nodes|)
      && (forall i :: 0 <= i < |after.nodes| && after.nodes[i].role == Leader ==>
            Vote(i, after.nodes[i].term) in after.leaders)
  {
  }

  /** Whoever led already is still supported; a new leader is the node that moved. */
  lemma LeadersKeep(net: Net, a: Action, l: Vote)
    requires Inv(net) && Enabled(net, a) && l in Next(net, a).leaders
    ensures LeaderOk(Next(net, a), l)
  {
    if l in net.leaders {
      LeaderStays(net, a, l);
    } else {
      MoverKeeps(net, a);
    }
  }

  lemma CandidatesKeep(net: Net, a: Action, i: Node)
    requires Inv(net) && Enabled(net, a) && i < |net.nodes|
    ensures |Next(net, a).nodes| == |net.nodes| && CandidateOk(Next(net, a), i)
  {
    if Mover(net, a) == Some(i) {
      MoverKeeps(net, a);
    } else {
      assert CandidateOk(net, i);
      CandidateStays(net, a, i);
    }
  }

  lemma StepInv(net: Net, a: Action)
    requires Inv(net) && Enabled(net, a)
    ensures Inv(Next(net, a))
  {
    RecordKeeps(net, a);
    var after := Next(net, a);
    forall i | 0 <= i < |after.nodes| ensures CandidateOk(after, i) {
      CandidatesKeep(net, a, i);
    }
    forall l | l in after.leaders ensures LeaderOk(after, l) {
      LeadersKeep(net, a, l);
    }
  }

  lemma {:induction false} RunInv(net: Net, run: seq<Action>)
    requires Inv(net) && Run(net, run).Some?
    ensures Inv(Run(net, run).value)
    decreases run
  {
    if run != [] {
      StepInv(net, run[0]);
      RunInv(Next(net, run[0]), run[1..]);
    }
  }

  /** Two majorities share a voter, who voted once. */
  lemma OneMajority(net: Net, i: Node, j: Node, term: u64)
    requires LeaderOk(net, Vote(i, term)) && LeaderOk(net, Vote(j, term))
    ensures i == j
  {
    var a, b := Supporters(net, i, term), Supporters(net, j, term);
    if i != j {
      assert a !! b;
      assert |a + b| == |a| + |b|;
      Smaller(a + b, Range(|net.nodes|));
    }
  }

  lemma FreshInv(n: nat)
    requires Size(n)
    ensures Inv(Fresh(n))
  {
  }

  /** Election safety, over the whole run and not only at its end: of all nodes that ever led a term,
      there is only one. */
  lemma ElectionSafety(n: nat, run: seq<Action>, i: Node, j: Node, term: u64)
    requires Size(n) && Run(Fresh(n), run).Some?
    requires var net := Run(Fresh(n), run).value; Vote(i, term) in net.leaders && Vote(j, term) in net.leaders
    ensures i == j
  {
    FreshInv(n);
    RunInv(Fresh(n), run);
    OneMajority(Run(Fresh(n), run).value, i, j, term);
  }

  /** The record is complete: a node that leads at any point of a run is in it from then on. */
  lemma {:induction false} LeadersRecorded(n: nat, before: seq<Action>, after: seq<Action>, i: Node)
    requires Size(n) && Run(Fresh(n), before + after).Some?
    ensures Run(Fresh(n), before).Some?
    ensures var mid := Run(Fresh(n), before).value;
      i < n && mid.nodes[i].role == Leader ==> Vote(i, mid.nodes[i].term) in Run(Fresh(n), before + after).value.leaders
  {
    FreshInv(n);
    RunSplit(Fresh(n), before, after);
    RunInv(Fresh(n), before);
    LeadersGrow(Run(Fresh(n), before).value, after);
  }

  lemma {:induction false} RunSplit(net: Net, before: seq<Action>, after: seq<Action>)
    requires Size(|net.nodes|) && Run(net, before + after).Some?
    ensures Run(net, before).Some? && Run(Run(net, before).value, after) == Run(net, before + after)
    decreases before
  {
    if before == [] {
      assert before + after == after;
    } else {
      assert (before + after)[1..] == before[1..] + after;
      RunSplit(Next(net, before[0]), before[1..], after);
    }
  }

  lemma {:induction false} LeadersGrow(net: Net, run: seq<Action>)
    requires Size(|net.nodes|) && Run(net, run).Some?
    ensures net.leaders <= Run(net, run).value.leaders
    decreases run
  {
    if run != [] {
      LeadersGrow(Next(net, run[0]), run[1..]);
    }
  }

  /** A term falls in exactly one case: a node at the largest 64-bit term starts an election and its
      counter wraps to zero. */
  lemma TermsNeverFall(net: Net, a: Action, i: Node)
    requires Size(|net.nodes|) && Possible(net, a) && i < |net.nodes|
    ensures Next(net, a).nodes[i].term < net.nodes[i].term
       <==> a == Begin(i) && net.nodes[i].term == TWO_64 - 1
  {
  }

  /** Whether node `i` runs its term counter over the top. */
  predicate Wraps(net: Net, run: seq<Action>, i: Node)
    requires Size(|net.nodes|) && i < |net.nodes| && Run(net, run).Some?
    decreases run
  {
    run != [] && ((run[0] == Begin(i) && net.nodes[i].term == TWO_64 - 1) || Wraps(Next(net, run[0]), run[1..], i))
  }

  lemma {:induction false} TermsRise(net: Net, run: seq<Action>, i: Node)
    requires Size(|net.nodes|) && i < |net.nodes| && Run(net, run).Some? && !Wraps(net, run, i)
    ensures Run(net, run).value.nodes[i].term >= net.nodes[i].term
    decreases run
  {
    if run != [] {
      TermsNeverFall(net, run[0], i);
      TermsRise(Next(net, run[0]), run[1..], i);
    }
  }

  /** The wrap is within reach: in a cluster of any size a node that hears of the largest term and then
      stands for election falls back to term zero. */
  lemma TermCanFall(n: nat)
    requires Size(n)
    ensures var run := [Reject(0, TWO_64 - 1), Begin(0)];
      Run(Fresh(n), run).Some? && Wraps(Fresh(n), run, 0) && Run(Fresh(n), run[..1]).Some?
      && Run(Fresh(n), run).value.nodes[0].term < Run(Fresh(n), run[..1]).value.nodes[0].term
  {
    var start, a, b := Fresh(n), Reject(0, TWO_64 - 1), Begin(0);
    var mid := Next(start, a);
    assert [a, b][..1] == [a] && [a, b][1..] == [b] && [b][1..] == [] && [a][1..] == [];
    assert mid.nodes[0].term == TWO_64 - 1 && mid.votes == map[];
    assert Run(start, [a]) == Run(mid, []);
    assert Run(start, [a, b]) == Run(mid, [b]) == Run(Next(mid, b), []);
    assert Wraps(mid, [b], 0);
  }
}
