/** `src/groups.rs`: repeating groups nested to any depth, parsed by recursive descent with loops. */
module Groups {
  import opened Bytes
  import opened Decimal
  import opened Message

  datatype GroupDef = GroupDef(countTag: u32, delimiterTag: u32, memberTags: seq<u32>, nestedGroups: seq<GroupDef>)

  /** What the parser returns: within an entry, plain fields and nested groups are kept apart. */
  datatype RepeatingGroup = RepeatingGroup(countTag: u32, count: nat, entries: seq<GroupEntry>)
  datatype GroupEntry = GroupEntry(fields: seq<Field>, nested: seq<RepeatingGroup>)

  /** A group as it stands on the wire: the count field's text, and each entry's fields and nested
      groups in the order sent. */
  datatype Tree = Tree(countTag: u32, countText: seq<byte>, entries: seq<Entry>)
  datatype Entry = Entry(items: seq<Item>)
  datatype Item = Leaf(field: Field) | Sub(group: Tree)

  /** The fields of a tree, in wire order. */
  function Print(t: Tree): seq<Field> {
    [Field(t.countTag, t.countText)] + PrintEntries(t.entries)
  }

  function PrintEntries(es: seq<Entry>): seq<Field> {
    if es == [] then [] else PrintItems(es[0].items) + PrintEntries(es[1..])
  }

  function PrintItems(items: seq<Item>): seq<Field> {
    if items == [] then [] else PrintItem(items[0]) + PrintItems(items[1..])
  }

  function PrintItem(i: Item): seq<Field> {
    match i case Leaf(f) => [f] case Sub(g) => Print(g)
  }

  /** The parser's view of a tree. */
  function View(t: Tree): RepeatingGroup {
    RepeatingGroup(t.countTag, |t.entries|, ViewEntries(t.entries))
  }

  function ViewEntries(es: seq<Entry>): (r: seq<GroupEntry>)
    ensures |r| == |es|
  {
    if es == [] then [] else [ViewEntry(es[0])] + ViewEntries(es[1..])
  }

  function ViewEntry(e: Entry): GroupEntry {
    GroupEntry(Leaves(e.items), Subs(e.items))
  }

  function Leaves(items: seq<Item>): seq<Field> {
    if items == [] then []
    else if items[0].Leaf? then [items[0].field] + Leaves(items[1..])
    else Leaves(items[1..])
  }

  function Subs(items: seq<Item>): seq<RepeatingGroup> {
    if items == [] then []
    else if items[0].Sub? then [SubView(items[0])] + Subs(items[1..])
    else Subs(items[1..])
  }

  function SubView(i: Item): RepeatingGroup
    requires i.Sub?
  {
    View(i.group)
  }

  predicate IsMember(d: GroupDef, tag: u32) { tag in d.memberTags }

  /** The first nested definition with this count tag. */
  function FindNested(ds: seq<GroupDef>, tag: u32): (r: Option<GroupDef>)
    ensures r.Some? ==> r.value in ds && r.value.countTag == tag
    ensures r.None? ==> forall d :: d in ds ==> d.countTag != tag
  {
    if ds == [] then None
    else if ds[0].countTag == tag then Some(ds[0])
    else FindNested(ds[1..], tag)
  }

  /** `parse_usize_from_buf`: an empty text counts as zero, the accumulator wraps. */
  function CountOf(text: seq<byte>): Option<u64> {
    if AllDigits(text) then Some(Wrap64(Value(text))) else None
  }

  datatype TreeResult = NoGroup | Group(tree: Tree, rest: seq<Field>)
  datatype EntriesResult = EntriesResult(entries: seq<Entry>, rest: seq<Field>)
  datatype ItemsResult = ItemsResult(items: seq<Item>, rest: seq<Field>)

  function ParseTree(fs: seq<Field>, d: GroupDef): (r: TreeResult)
    ensures r.Group? ==> |r.rest| < |fs|
    decreases |fs|, 0
  {
    if fs == [] || fs[0].tag != d.countTag then NoGroup
    else
      var count := CountOf(fs[0].value);
      if count.None? then NoGroup
      else
        var r := ParseEntries(fs[1..], d, count.value);
        Group(Tree(fs[0].tag, fs[0].value, r.entries), r.rest)
  }

  /** At most `count` entries, each opened by the delimiter. */
  function ParseEntries(fs: seq<Field>, d: GroupDef, count: nat): (r: EntriesResult)
    ensures |r.rest| <= |fs|
    decreases |fs|, 3
  {
    if count == 0 || fs == [] || fs[0].tag != d.delimiterTag then EntriesResult([], fs)
    else
      var first := ParseItems(fs[1..], d);
      var others := ParseEntries(first.rest, d, count - 1);
      EntriesResult([Entry([Leaf(fs[0])] + first.items)] + others.entries, others.rest)
  }

  /** What follows a delimiter, up to the next one or a field foreign to the group. */
  function ParseItems(fs: seq<Field>, d: GroupDef): (r: ItemsResult)
    ensures |r.rest| <= |fs|
    decreases |fs|, 2
  {
    if fs == [] || fs[0].tag == d.delimiterTag then ItemsResult([], fs)
    else
      var sub := ParseNested(fs, d);
      if sub.Group? then
        var others := ParseItems(sub.rest, d);
        ItemsResult([Sub(sub.tree)] + others.items, others.rest)
      else if IsMember(d, fs[0].tag) then
        var others := ParseItems(fs[1..], d);
        ItemsResult([Leaf(fs[0])] + others.items, others.rest)
      else ItemsResult([], fs)
  }

  function ParseNested(fs: seq<Field>, d: GroupDef): (r: TreeResult)
    requires fs != []
    ensures r.Group? ==> |r.rest| < |fs|
    decreases |fs|, 1
  {
    var n := FindNested(d.nestedGroups, fs[0].tag);
    if n.None? then NoGroup else ParseTree(fs, n.value)
  }

  // ----- every field consumed exactly once, in order -----

  /** Whatever is parsed, printing it again and appending what was left gives the input back. */
  lemma {:induction false} TreeConserves(fs: seq<Field>, d: GroupDef)
    ensures var r := ParseTree(fs, d); r.Group? ==> Print(r.tree) + r.rest == fs
    decreases |fs|, 0
  {
    if ParseTree(fs, d).Group? {
      EntriesConserve(fs[1..], d, CountOf(fs[0].value).value);
      assert fs == [fs[0]] + fs[1..];
    }
  }

  lemma {:induction false} EntriesConserve(fs: seq<Field>, d: GroupDef, count: nat)
    ensures var r := ParseEntries(fs, d, count); PrintEntries(r.entries) + r.rest == fs
    decreases |fs|, 3
  {
    if count != 0 && fs != [] && fs[0].tag == d.delimiterTag {
      var first := ParseItems(fs[1..], d);
      var others := ParseEntries(first.rest, d, count - 1);
      var e := Entry([Leaf(fs[0])] + first.items);
      ItemsConserve(fs[1..], d);
      EntriesConserve(first.rest, d, count - 1);
      assert e.items[1..] == first.items;
      assert PrintItems(e.items) == [fs[0]] + PrintItems(first.items);
      assert ([e] + others.entries)[1..] == others.entries;
      assert fs == [fs[0]] + fs[1..];
    }
  }

  lemma {:induction false} ItemsConserve(fs: seq<Field>, d: GroupDef)
    ensures var r := ParseItems(fs, d); PrintItems(r.items) + r.rest == fs
    decreases |fs|, 2
  {
    if fs != [] && fs[0].tag != d.delimiterTag {
      var sub := ParseNested(fs, d);
      if sub.Group? {
        TreeConserves(fs, FindNested(d.nestedGroups, fs[0].tag).value);
        var others := ParseItems(sub.rest, d);
        ItemsConserve(sub.rest, d);
        assert ([Sub(sub.tree)] + others.items)[1..] == others.items;
      } else if IsMember(d, fs[0].tag) {
        var others := ParseItems(fs[1..], d);
        ItemsConserve(fs[1..], d);
        assert ([Leaf(fs[0])] + others.items)[1..] == others.items;
        assert fs == [fs[0]] + fs[1..];
      }
    }
  }

  /** Fields in a parsed group: one count field, plus those of its entries and nested groups. */
  function Size(g: RepeatingGroup): nat { 1 + SizeEntries(g.entries) }

  function SizeEntries(es: seq<GroupEntry>): nat {
    if es == [] then 0 else SizeEntry(es[0]) + SizeEntries(es[1..])
  }

  function SizeEntry(e: GroupEntry): nat { |e.fields| + SizeGroups(e.nested) }

  function SizeGroups(gs: seq<RepeatingGroup>): nat {
    if gs == [] then 0 else Size(gs[0]) + SizeGroups(gs[1..])
  }

  lemma {:induction false} ViewSize(t: Tree)
    ensures Size(View(t)) == |Print(t)|
  {
    EntriesSize(t.entries);
  }

  lemma {:induction false} EntriesSize(es: seq<Entry>)
    ensures SizeEntries(ViewEntries(es)) == |PrintEntries(es)|
  {
    if es != [] {
      EntrySize(es[0]);
      EntriesSize(es[1..]);
      assert ViewEntries(es)[1..] == ViewEntries(es[1..]);
    }
  }

  lemma {:induction false} EntrySize(e: Entry)
    ensures SizeEntry(ViewEntry(e)) == |PrintItems(e.items)|
  {
    ItemsSize(e.items);
  }

  lemma {:induction false} ItemsSize(items: seq<Item>)
    ensures |Leaves(items)| + SizeGroups(Subs(items)) == |PrintItems(items)|
  {
    if items != [] {
      ItemsSize(items[1..]);
      ItemSize(items[0]);
      if items[0].Sub? {
        assert Subs(items)[1..] == Subs(items[1..]);
      }
    }
  }

  lemma {:induction false} ItemSize(i: Item)
    ensures |PrintItem(i)| == if i.Leaf? then 1 else Size(SubView(i))
  {
    if i.Sub? {
      ViewSize(i.group);
    }
  }

  // ----- what is returned, read off the fields -----

  /** The fields are the group's count field and then its entries', one after the other. */
  ghost predicate Spells(g: RepeatingGroup, fs: seq<Field>)
    decreases |fs|, 0, 0
  {
    fs != [] && fs[0].tag == g.countTag && g.count == |g.entries| && SpellsEntries(g.entries, fs[1..])
  }

  ghost predicate SpellsEntries(es: seq<GroupEntry>, fs: seq<Field>)
    decreases |fs|, 2, |es|
  {
    if es == [] then fs == []
    else exists cut :: 0 <= cut <= |fs| && SpellsEntry(es[0], fs[..cut]) && SpellsEntries(es[1..], fs[cut..])
  }

  /** The entry's own fields and its nested groups, each in their order, make up the fields. */
  ghost predicate SpellsEntry(e: GroupEntry, fs: seq<Field>)
    decreases |fs|, 1, 1
  {
    Merges(e.fields, e.nested, fs)
  }

  ghost predicate Merges(plain: seq<Field>, groups: seq<RepeatingGroup>, fs: seq<Field>)
    decreases |fs|, 1, 0
  {
    || (fs == [] && plain == [] && groups == [])
    || (fs != [] && plain != [] && fs[0] == plain[0] && Merges(plain[1..], groups, fs[1..]))
    || (groups != [] && exists cut ::
          0 < cut <= |fs| && Spells(groups[0], fs[..cut]) && Merges(plain, groups[1..], fs[cut..]))
  }

  lemma {:induction false} ViewSpells(t: Tree)
    ensures Spells(View(t), Print(t))
  {
    EntriesSpell(t.entries);
    assert Print(t)[1..] == PrintEntries(t.entries);
  }

  lemma {:induction false} EntriesSpell(es: seq<Entry>)
    ensures SpellsEntries(ViewEntries(es), PrintEntries(es))
  {
    if es != [] {
      var a, b := PrintItems(es[0].items), PrintEntries(es[1..]);
      EntrySpells(es[0]);
      EntriesSpell(es[1..]);
      assert (a + b)[..|a|] == a && (a + b)[|a|..] == b && ViewEntries(es)[1..] == ViewEntries(es[1..]);
    }
  }

  lemma {:induction false} EntrySpells(e: Entry)
    ensures SpellsEntry(ViewEntry(e), PrintItems(e.items))
  {
    ItemsSpell(e.items);
  }

  lemma MergesField(f: Field, plain: seq<Field>, groups: seq<RepeatingGroup>, fs: seq<Field>)
    requires Merges(plain, groups, fs)
    ensures Merges([f] + plain, groups, [f] + fs)
  {
    assert ([f] + plain)[1..] == plain && ([f] + fs)[1..] == fs;
  }

  lemma MergesGroup(g: RepeatingGroup, a: seq<Field>, plain: seq<Field>, groups: seq<RepeatingGroup>, fs: seq<Field>)
    requires Merges(plain, groups, fs) && Spells(g, a)
    ensures Merges(plain, [g] + groups, a + fs)
  {
    assert (a + fs)[..|a|] == a && (a + fs)[|a|..] == fs && ([g] + groups)[1..] == groups;
  }

  lemma {:induction false} ItemsSpell(items: seq<Item>)
    ensures Merges(Leaves(items), Subs(items), PrintItems(items))
  {
    if items != [] {
      ItemsSpell(items[1..]);
      ItemSpells(items[0]);
      if items[0].Leaf? {
        MergesField(items[0].field, Leaves(items[1..]), Subs(items[1..]), PrintItems(items[1..]));
      } else {
        MergesGroup(SubView(items[0]), PrintItem(items[0]), Leaves(items[1..]), Subs(items[1..]),
                    PrintItems(items[1..]));
      }
    }
  }

  lemma {:induction false} ItemSpells(i: Item)
    ensures i.Sub? ==> Spells(SubView(i), PrintItem(i))
  {
    if i.Sub? {
      ViewSpells(i.group);
    }
  }

  /** What is parsed from the front of `fs` spells the fields it took. */
  lemma ParsedSpells(fs: seq<Field>, d: GroupDef)
    requires ParseTree(fs, d).Group?
    ensures var r := ParseTree(fs, d); Spells(View(r.tree), fs[..|fs| - |r.rest|])
  {
    var r := ParseTree(fs, d);
    TreeConserves(fs, d);
    ViewSpells(r.tree);
    assert fs[..|Print(r.tree)|] == Print(r.tree);
  }

  // ----- what spelling means -----

  /** `a` comes out of `b` by leaving fields out. */
  predicate Subsequence(a: seq<Field>, b: seq<Field>) {
    if a == [] then true
    else b != [] && ((a[0] == b[0] && Subsequence(a[1..], b[1..])) || Subsequence(a, b[1..]))
  }

  lemma {:induction false} SubsequenceBehind(a: seq<Field>, front: seq<Field>, b: seq<Field>)
    requires Subsequence(a, b)
    ensures Subsequence(a, front + b)
  {
    if front == [] {
      assert front + b == b;
    } else {
      SubsequenceBehind(a, front[1..], b);
      assert (front + b)[1..] == front[1..] + b;
    }
  }

  /** An entry's own fields stand in its stretch of the message in the same order. */
  lemma {:induction false} EntryInOrder(plain: seq<Field>, groups: seq<RepeatingGroup>, fs: seq<Field>)
    requires Merges(plain, groups, fs)
    ensures Subsequence(plain, fs)
    decreases |fs|
  {
    if fs == [] && plain == [] {
    } else if fs != [] && plain != [] && fs[0] == plain[0] && Merges(plain[1..], groups, fs[1..]) {
      EntryInOrder(plain[1..], groups, fs[1..]);
    } else {
      var cut :| 0 < cut <= |fs| && Spells(groups[0], fs[..cut]) && Merges(plain, groups[1..], fs[cut..]);
      EntryInOrder(plain, groups[1..], fs[cut..]);
      SubsequenceBehind(plain, fs[..cut], fs[cut..]);
      assert fs[..cut] + fs[cut..] == fs;
    }
  }

  /** The entries' own fields, entry after entry. */
  function OwnFields(es: seq<GroupEntry>): seq<Field> {
    if es == [] then [] else es[0].fields + OwnFields(es[1..])
  }

  lemma {:induction false} FlatMerge(plain: seq<Field>, fs: seq<Field>)
    requires Merges(plain, [], fs)
    ensures plain == fs
    decreases |fs|
  {
    if fs != [] {
      FlatMerge(plain[1..], fs[1..]);
    }
  }

  /** Without nested groups the entries' fields are the fields. */
  lemma {:induction false} FlatEntries(es: seq<GroupEntry>, fs: seq<Field>)
    requires SpellsEntries(es, fs) && forall e :: e in es ==> e.nested == []
    ensures OwnFields(es) == fs
    decreases |es|
  {
    if es != [] {
      var cut :| 0 <= cut <= |fs| && SpellsEntry(es[0], fs[..cut]) && SpellsEntries(es[1..], fs[cut..]);
      assert es[0] in es;
      FlatMerge(es[0].fields, fs[..cut]);
      FlatEntries(es[1..], fs[cut..]);
      assert fs[..cut] + fs[cut..] == fs;
    }
  }

  /** All fields of a group and of the groups nested in it, their count fields aside. */
  function AllFields(g: RepeatingGroup): seq<Field> { EntriesFields(g.entries) }

  function EntriesFields(es: seq<GroupEntry>): seq<Field> {
    if es == [] then [] else es[0].fields + NestedFields(es[0].nested) + EntriesFields(es[1..])
  }

  function NestedFields(gs: seq<RepeatingGroup>): seq<Field> {
    if gs == [] then [] else AllFields(gs[0]) + NestedFields(gs[1..])
  }

  /** The count tags of a group and of the groups nested in it. */
  function CountTags(g: RepeatingGroup): seq<u32> { [g.countTag] + EntriesTags(g.entries) }

  function EntriesTags(es: seq<GroupEntry>): seq<u32> {
    if es == [] then [] else NestedTags(es[0].nested) + EntriesTags(es[1..])
  }

  function NestedTags(gs: seq<RepeatingGroup>): seq<u32> {
    if gs == [] then [] else CountTags(gs[0]) + NestedTags(gs[1..])
  }

  /** The fields are these and the counts, and the counts carry the tags. */
  predicate Accounted(all: seq<Field>, fields: seq<Field>, counts: seq<Field>, tags: seq<u32>) {
    && multiset(all) == multiset(fields) + multiset(counts) && |counts| == |tags|
    && forall k :: 0 <= k < |counts| ==> counts[k].tag == tags[k]
  }

  lemma AccountedTogether(all: seq<Field>, cut: nat, f: seq<Field>, c: seq<Field>, t: seq<u32>,
                          g: seq<Field>, d: seq<Field>, u: seq<u32>)
    requires cut <= |all| && Accounted(all[..cut], f, c, t) && Accounted(all[cut..], g, d, u)
    ensures Accounted(all, f + g, c + d, t + u)
  {
    assert all == all[..cut] + all[cut..];
  }

  lemma AccountedMoved(all: seq<Field>, a: seq<Field>, b: seq<Field>, c: seq<Field>, counts: seq<Field>, tags: seq<u32>)
    requires Accounted(all, a + (b + c), counts, tags)
    ensures Accounted(all, b + (a + c), counts, tags) && Accounted(all, a + b + c, counts, tags)
  {
    assert a + b + c == a + (b + c);
  }

  lemma AccountedField(all: seq<Field>, fields: seq<Field>, counts: seq<Field>, tags: seq<u32>, f: Field)
    requires Accounted(all, fields, counts, tags)
    ensures Accounted([f] + all, [f] + fields, counts, tags)
    ensures Accounted([f] + all, fields, [f] + counts, [f.tag] + tags)
  {
  }

  /** Every field taken is in the group or in one nested in it, or is the count field of one of them. */
  lemma {:induction false} GroupAccounted(g: RepeatingGroup, fs: seq<Field>) returns (counts: seq<Field>)
    requires Spells(g, fs)
    ensures Accounted(fs, AllFields(g), counts, CountTags(g))
    decreases |fs|, 0, 0
  {
    var inner := EntriesAccounted(g.entries, fs[1..]);
    counts := [fs[0]] + inner;
    AccountedField(fs[1..], AllFields(g), inner, EntriesTags(g.entries), fs[0]);
    assert fs == [fs[0]] + fs[1..];
  }

  lemma {:induction false} EntriesAccounted(es: seq<GroupEntry>, fs: seq<Field>) returns (counts: seq<Field>)
    requires SpellsEntries(es, fs)
    ensures Accounted(fs, EntriesFields(es), counts, EntriesTags(es))
    decreases |fs|, 2, |es|
  {
    if es == [] {
      counts := [];
    } else {
      var cut :| 0 <= cut <= |fs| && SpellsEntry(es[0], fs[..cut]) && SpellsEntries(es[1..], fs[cut..]);
      var a := EntryAccounted(es[0].fields, es[0].nested, fs[..cut]);
      var b := EntriesAccounted(es[1..], fs[cut..]);
      AccountedTogether(fs, cut, es[0].fields + NestedFields(es[0].nested), a, NestedTags(es[0].nested),
                        EntriesFields(es[1..]), b, EntriesTags(es[1..]));
      counts := a + b;
    }
  }

  lemma {:induction false} EntryAccounted(plain: seq<Field>, groups: seq<RepeatingGroup>, fs: seq<Field>)
    returns (counts: seq<Field>)
    requires Merges(plain, groups, fs)
    ensures Accounted(fs, plain + NestedFields(groups), counts, NestedTags(groups))
    decreases |fs|, 1, 0
  {
    if fs == [] && plain == [] && groups == [] {
      counts := [];
    } else if fs != [] && plain != [] && fs[0] == plain[0] && Merges(plain[1..], groups, fs[1..]) {
      counts := EntryAccounted(plain[1..], groups, fs[1..]);
      AccountedField(fs[1..], plain[1..] + NestedFields(groups), counts, NestedTags(groups), fs[0]);
      assert fs == [fs[0]] + fs[1..] && plain == [plain[0]] + plain[1..];
      assert [fs[0]] + (plain[1..] + NestedFields(groups)) == plain + NestedFields(groups);
    } else {
      counts := GroupTaken(plain, groups, fs);
    }
  }

  lemma {:induction false} GroupTaken(plain: seq<Field>, groups: seq<RepeatingGroup>, fs: seq<Field>)
    returns (counts: seq<Field>)
    requires groups != []
    requires exists cut :: 0 < cut <= |fs| && Spells(groups[0], fs[..cut]) && Merges(plain, groups[1..], fs[cut..])
    ensures Accounted(fs, plain + NestedFields(groups), counts, NestedTags(groups))
    decreases |fs|, 0, 1
  {
    var cut :| 0 < cut <= |fs| && Spells(groups[0], fs[..cut]) && Merges(plain, groups[1..], fs[cut..]);
    var a := GroupAccounted(groups[0], fs[..cut]);
    var b := EntryAccounted(plain, groups[1..], fs[cut..]);
    AccountedTogether(fs, cut, AllFields(groups[0]), a, CountTags(groups[0]),
                      plain + NestedFields(groups[1..]), b, NestedTags(groups[1..]));
    AccountedMoved(fs, AllFields(groups[0]), plain, NestedFields(groups[1..]), a + b, NestedTags(groups));
    counts := a + b;
  }

  // ----- the shape of what is parsed -----

  /** A tree that belongs to a definition: no more entries than declared, every entry opened by the
      one delimiter it holds, members and nested groups behind it. */
  predicate Fits(t: Tree, d: GroupDef)
    decreases t
  {
    && t.countTag == d.countTag
    && CountOf(t.countText).Some? && |t.entries| <= CountOf(t.countText).value
    && FitsEntries(t.entries, d)
  }

  predicate FitsEntries(es: seq<Entry>, d: GroupDef)
    decreases es
  {
    es == [] || (FitsEntry(es[0], d) && FitsEntries(es[1..], d))
  }

  predicate FitsEntry(e: Entry, d: GroupDef)
    decreases e
  {
    e.items != [] && e.items[0].Leaf? && e.items[0].field.tag == d.delimiterTag && FitsItems(e.items[1..], d)
  }

  predicate FitsItems(items: seq<Item>, d: GroupDef)
    decreases items
  {
    items == [] || (FitsItem(items[0], d) && FitsItems(items[1..], d))
  }

  /** A nested count tag whose text is not a number may stand as a plain member. */
  predicate FitsItem(i: Item, d: GroupDef)
    decreases i
  {
    match i
    case Leaf(f) =>
      && f.tag != d.delimiterTag && IsMember(d, f.tag)
      && (FindNested(d.nestedGroups, f.tag).Some? ==> CountOf(f.value).None?)
    case Sub(g) =>
      && g.countTag != d.delimiterTag
      && var n := FindNested(d.nestedGroups, g.countTag); n.Some? && Fits(g, n.value)
  }

  lemma {:induction false} ParsedFits(fs: seq<Field>, d: GroupDef)
    ensures var r := ParseTree(fs, d); r.Group? ==> Fits(r.tree, d)
    decreases |fs|, 0
  {
    if ParseTree(fs, d).Group? {
      EntriesFit(fs[1..], d, CountOf(fs[0].value).value);
    }
  }

  lemma {:induction false} EntriesFit(fs: seq<Field>, d: GroupDef, count: nat)
    ensures var r := ParseEntries(fs, d, count); |r.entries| <= count && FitsEntries(r.entries, d)
    decreases |fs|, 3
  {
    if count != 0 && fs != [] && fs[0].tag == d.delimiterTag {
      var first := ParseItems(fs[1..], d);
      var others := ParseEntries(first.rest, d, count - 1);
      ItemsFit(fs[1..], d);
      EntriesFit(first.rest, d, count - 1);
      var e := Entry([Leaf(fs[0])] + first.items);
      assert e.items[1..] == first.items;
      assert ([e] + others.entries)[1..] == others.entries;
    }
  }

  lemma NoGroupMeansNoCount(fs: seq<Field>, d: GroupDef)
    requires fs != [] && fs[0].tag == d.countTag && ParseTree(fs, d).NoGroup?
    ensures CountOf(fs[0].value).None?
  {
  }

  lemma {:induction false} ItemsFit(fs: seq<Field>, d: GroupDef)
    ensures FitsItems(ParseItems(fs, d).items, d)
    decreases |fs|, 2
  {
    if fs != [] && fs[0].tag != d.delimiterTag {
      var sub := ParseNested(fs, d);
      var n := FindNested(d.nestedGroups, fs[0].tag);
      if sub.Group? {
        ParsedFits(fs, n.value);
        ItemsFit(sub.rest, d);
        var others := ParseItems(sub.rest, d);
        assert ([Sub(sub.tree)] + others.items)[1..] == others.items;
      } else if IsMember(d, fs[0].tag) {
        ItemsFit(fs[1..], d);
        if n.Some? {
          NoGroupMeansNoCount(fs, n.value);
        }
        var others := ParseItems(fs[1..], d);
        assert ([Leaf(fs[0])] + others.items)[1..] == others.items;
      }
    }
  }

  /** A returned group that belongs to a definition: every entry opens with its one delimiter, members and groups of
      nested definitions follow. */
  predicate Belongs(g: RepeatingGroup, d: GroupDef)
    decreases g, 0
  {
    g.countTag == d.countTag && forall e :: e in g.entries ==> BelongsEntry(e, d)
  }

  predicate BelongsEntry(e: GroupEntry, d: GroupDef)
    decreases e, 0
  {
    && e.fields != [] && e.fields[0].tag == d.delimiterTag && AreMembers(e.fields[1..], d)
    && forall g :: g in e.nested ==> BelongsNested(g, d)
  }

  predicate AreMembers(fs: seq<Field>, d: GroupDef) {
    forall f :: f in fs ==> f.tag != d.delimiterTag && IsMember(d, f.tag)
  }

  predicate BelongsNested(g: RepeatingGroup, d: GroupDef)
    decreases g, 1
  {
    && g.countTag != d.delimiterTag
    && var n := FindNested(d.nestedGroups, g.countTag); n.Some? && Belongs(g, n.value)
  }

  lemma {:induction false} FitsBelongs(t: Tree, d: GroupDef)
    requires Fits(t, d)
    ensures Belongs(View(t), d)
  {
    EntriesBelong(t.entries, d);
  }

  lemma {:induction false} EntriesBelong(es: seq<Entry>, d: GroupDef)
    requires FitsEntries(es, d)
    ensures forall e :: e in ViewEntries(es) ==> BelongsEntry(e, d)
  {
    if es != [] {
      EntryBelongs(es[0], d);
      EntriesBelong(es[1..], d);
    }
  }

  lemma {:induction false} EntryBelongs(e: Entry, d: GroupDef)
    requires FitsEntry(e, d)
    ensures BelongsEntry(ViewEntry(e), d)
  {
    ItemsBelong(e.items[1..], d);
    assert ViewEntry(e).fields[1..] == Leaves(e.items[1..]) && Subs(e.items) == Subs(e.items[1..]);
  }

  lemma {:induction false} ItemsBelong(items: seq<Item>, d: GroupDef)
    requires FitsItems(items, d)
    ensures AreMembers(Leaves(items), d) && forall g :: g in Subs(items) ==> BelongsNested(g, d)
  {
    if items != [] {
      ItemBelongs(items[0], d);
      ItemsBelong(items[1..], d);
    }
  }

  lemma {:induction false} ItemBelongs(i: Item, d: GroupDef)
    requires FitsItem(i, d)
    ensures i.Sub? ==> BelongsNested(SubView(i), d)
  {
    match i
    case Leaf(_) =>
    case Sub(g) => FitsBelongs(g, FindNested(d.nestedGroups, g.countTag).value);
  }

  /** Where the parser stands after reading up to `rest`. */
  predicate At(fs: seq<Field>, idx: nat, rest: seq<Field>) {
    idx <= |fs| && fs[idx..] == rest
  }

  /** What is parsed, said of the returned group and the fields alone: it belongs to the definition, has no more
      entries than declared, and spells the fields from `start` on up to the index returned. */
  ghost predicate Reads(g: RepeatingGroup, fs: seq<Field>, start: nat, next: nat, d: GroupDef) {
    && start < next <= |fs| && Belongs(g, d) && Spells(g, fs[start..next])
    && CountOf(fs[start].value).Some? && |g.entries| <= CountOf(fs[start].value).value
  }

  lemma ParsedReads(fs: seq<Field>, start: nat, next: nat, d: GroupDef, r: TreeResult)
    requires start < |fs| && r == ParseTree(fs[start..], d) && r.Group? && At(fs, next, r.rest)
    ensures Reads(View(r.tree), fs, start, next, d)
  {
    var all := fs[start..];
    ParsedFits(all, d);
    FitsBelongs(r.tree, d);
    ParsedSpells(all, d);
    assert all[..|all| - |r.rest|] == fs[start..next];
  }

  /** For a definition without nested groups the entries' fields, entry after entry, are the fields that follow the
      count field. */
  lemma FlatReads(g: RepeatingGroup, fs: seq<Field>, start: nat, next: nat, d: GroupDef)
    requires Reads(g, fs, start, next, d) && d.nestedGroups == []
    ensures OwnFields(g.entries) == fs[start + 1..next]
  {
    forall e | e in g.entries ensures e.nested == [] {
      assert BelongsEntry(e, d);
      assert e.nested != [] ==> BelongsNested(e.nested[0], d);
    }
    FlatEntries(g.entries, fs[start..next][1..]);
    assert fs[start..next][1..] == fs[start + 1..next];
  }

  // ----- where reading starts and stops -----

  /** There is a group exactly where its count tag stands with a number behind it, however many entries follow. */
  lemma GroupExactly(fs: seq<Field>, d: GroupDef)
    ensures ParseTree(fs, d).Group? <==> fs != [] && fs[0].tag == d.countTag && CountOf(fs[0].value).Some?
  {
  }

  /** The next field cannot continue an entry: there is none, or it is a delimiter, or it is neither a member nor the
      count field of a nested group. */
  predicate Ends(fs: seq<Field>, d: GroupDef) {
    || fs == [] || fs[0].tag == d.delimiterTag
    || (!IsMember(d, fs[0].tag) && var n := FindNested(d.nestedGroups, fs[0].tag);
          n.None? || CountOf(fs[0].value).None?)
  }

  lemma {:induction false} ItemsStop(fs: seq<Field>, d: GroupDef)
    ensures Ends(ParseItems(fs, d).rest, d)
    decreases |fs|
  {
    if fs != [] && fs[0].tag != d.delimiterTag {
      var sub := ParseNested(fs, d);
      if sub.Group? {
        ItemsStop(sub.rest, d);
      } else if IsMember(d, fs[0].tag) {
        ItemsStop(fs[1..], d);
      } else if FindNested(d.nestedGroups, fs[0].tag).Some? {
        GroupExactly(fs, FindNested(d.nestedGroups, fs[0].tag).value);
      }
    }
  }

  /** Fewer than the declared entries are read only when no delimiter follows; and behind the last entry nothing
      could have continued it. */
  lemma {:induction false} EntriesStop(fs: seq<Field>, d: GroupDef, count: nat)
    ensures var r := ParseEntries(fs, d, count);
      && (|r.entries| < count ==> r.rest == [] || r.rest[0].tag != d.delimiterTag)
      && (r.entries != [] ==> Ends(r.rest, d)) && (r.entries == [] ==> r.rest == fs)
    decreases count
  {
    if count != 0 && fs != [] && fs[0].tag == d.delimiterTag {
      ItemsStop(fs[1..], d);
      EntriesStop(ParseItems(fs[1..], d).rest, d, count - 1);
    }
  }

  /** A group is read as far as it goes. */
  lemma ReadsToItsEnd(fs: seq<Field>, d: GroupDef)
    requires ParseTree(fs, d).Group?
    ensures var r := ParseTree(fs, d);
      && (|r.tree.entries| < CountOf(fs[0].value).value ==> r.rest == [] || r.rest[0].tag != d.delimiterTag)
      && (r.tree.entries != [] ==> Ends(r.rest, d)) && (r.tree.entries == [] ==> r.rest == fs[1..])
  {
    EntriesStop(fs[1..], d, CountOf(fs[0].value).value);
  }

  // ----- printing and parsing back -----

  /** Declared counts equal entry counts, at every level. */
  predicate Exact(t: Tree)
    decreases t
  {
    CountOf(t.countText) == Some(|t.entries|) && ExactEntries(t.entries)
  }

  predicate ExactEntries(es: seq<Entry>)
    decreases es
  {
    es == [] || (ExactEntry(es[0]) && ExactEntries(es[1..]))
  }

  predicate ExactEntry(e: Entry)
    decreases e
  {
    ExactItems(e.items)
  }

  predicate ExactItems(items: seq<Item>)
    decreases items
  {
    items == [] || (ExactItem(items[0]) && ExactItems(items[1..]))
  }

  predicate ExactItem(i: Item)
    decreases i
  {
    i.Leaf? || Exact(i.group)
  }

  /** A field with this tag cannot be taken for a continuation of a complete group. */
  predicate Foreign(tag: u32, d: GroupDef)
    decreases d
  {
    && (tag == d.delimiterTag || (!IsMember(d, tag) && FindNested(d.nestedGroups, tag).None?))
    && forall n :: n in d.nestedGroups ==> Foreign(tag, n)
  }

  /** Tags of a level do not turn up inside its nested groups. */
  predicate Separated(d: GroupDef)
    decreases d
  {
    forall n :: n in d.nestedGroups ==>
      && Separated(n)
      && Foreign(d.delimiterTag, n)
      && (forall tag :: tag in d.memberTags ==> Foreign(tag, n))
      && (forall m :: m in d.nestedGroups ==> Foreign(m.countTag, n))
  }

  predicate ForeignNext(fs: seq<Field>, d: GroupDef) { fs == [] || Foreign(fs[0].tag, d) }

  /** Printing a tree of any depth and parsing it gives the tree back and stops right behind it. */
  lemma {:induction false} TreeRoundTrip(t: Tree, d: GroupDef, rest: seq<Field>)
    requires Fits(t, d) && Exact(t) && Separated(d) && ForeignNext(rest, d)
    ensures ParseTree(Print(t) + rest, d) == Group(t, rest)
    decreases t
  {
    EntriesRoundTrip(t.entries, d, rest);
    assert (Print(t) + rest)[1..] == PrintEntries(t.entries) + rest;
  }

  lemma {:induction false} EntriesRoundTrip(es: seq<Entry>, d: GroupDef, rest: seq<Field>)
    requires FitsEntries(es, d) && ExactEntries(es) && Separated(d) && ForeignNext(rest, d)
    ensures ParseEntries(PrintEntries(es) + rest, d, |es|) == EntriesResult(es, rest)
    decreases es
  {
    if es != [] {
      var tail := PrintEntries(es[1..]) + rest;
      EntriesRoundTrip(es[1..], d, rest);
      EntryOpens(es[1..], d, rest);
      EntryRoundTrip(es[0], d, tail);
      Regroup(PrintItems(es[0].items), PrintEntries(es[1..]), rest);
      OneMore(PrintItems(es[0].items) + tail, d, |es|, es[0], es[1..], rest);
      assert es == [es[0]] + es[1..];
    }
  }

  lemma Regroup(a: seq<Field>, b: seq<Field>, c: seq<Field>)
    ensures (a + b) + c == a + (b + c)
  {
  }

  /** One turn of the entry loop. */
  lemma OneMore(fs: seq<Field>, d: GroupDef, count: nat, e: Entry, es: seq<Entry>, rest: seq<Field>)
    requires count > 0 && fs != [] && fs[0].tag == d.delimiterTag
    requires Entry([Leaf(fs[0])] + ParseItems(fs[1..], d).items) == e
    requires ParseEntries(ParseItems(fs[1..], d).rest, d, count - 1) == EntriesResult(es, rest)
    ensures ParseEntries(fs, d, count) == EntriesResult([e] + es, rest)
  {
  }

  lemma EntryOpens(es: seq<Entry>, d: GroupDef, rest: seq<Field>)
    requires FitsEntries(es, d) && Separated(d) && ForeignNext(rest, d)
    ensures ForeignNext(PrintEntries(es) + rest, d)
  {
    if es != [] {
      assert PrintItems(es[0].items)[0] == es[0].items[0].field;
    } else {
      assert PrintEntries(es) + rest == rest;
    }
  }

  /** One entry: its delimiter, then its items. */
  lemma {:induction false} EntryRoundTrip(e: Entry, d: GroupDef, rest: seq<Field>)
    requires FitsEntry(e, d) && ExactEntry(e) && Separated(d) && ForeignNext(rest, d)
    ensures var fs := PrintItems(e.items) + rest;
      && fs != [] && fs[0].tag == d.delimiterTag
      && Entry([Leaf(fs[0])] + ParseItems(fs[1..], d).items) == e && ParseItems(fs[1..], d).rest == rest
    decreases e
  {
    ItemsRoundTrip(e.items[1..], d, rest);
    assert PrintItems(e.items) == [e.items[0].field] + PrintItems(e.items[1..]);
    assert (PrintItems(e.items) + rest)[1..] == PrintItems(e.items[1..]) + rest;
    assert e.items == [e.items[0]] + e.items[1..];
  }

  lemma {:induction false} ItemsRoundTrip(items: seq<Item>, d: GroupDef, rest: seq<Field>)
    requires FitsItems(items, d) && ExactItems(items) && Separated(d) && ForeignNext(rest, d)
    ensures ParseItems(PrintItems(items) + rest, d) == ItemsResult(items, rest)
    decreases items
  {
    if items != [] {
      var tail := PrintItems(items[1..]) + rest;
      ItemsRoundTrip(items[1..], d, rest);
      Regroup(PrintItem(items[0]), PrintItems(items[1..]), rest);
      ItemRoundTrip(items[0], items[1..], d, rest);
      assert items == [items[0]] + items[1..];
    } else if rest != [] {
      assert PrintItems(items) + rest == rest;
    } else {
      assert PrintItems(items) + rest == [];
    }
  }

  /** The first of several items is recognised for what it is. */
  lemma {:induction false} ItemRoundTrip(i: Item, others: seq<Item>, d: GroupDef, rest: seq<Field>)
    requires FitsItem(i, d) && ExactItem(i) && FitsItems(others, d) && Separated(d) && ForeignNext(rest, d)
    ensures var tail := PrintItems(others) + rest; var fs := PrintItem(i) + tail;
      && fs != [] && fs[0].tag != d.delimiterTag
      && (i.Leaf? ==> ParseNested(fs, d).NoGroup? && IsMember(d, fs[0].tag) && fs[0] == i.field && fs[1..] == tail)
      && (i.Sub? ==> ParseNested(fs, d) == Group(i.group, tail))
    decreases i
  {
    var tail := PrintItems(others) + rest;
    if i.Sub? {
      var n := FindNested(d.nestedGroups, i.group.countTag).value;
      NextForeign(others, d, rest, n);
      TreeRoundTrip(i.group, n, tail);
    }
  }

  /** Whatever follows a nested group inside its parent is foreign to it. */
  lemma NextForeign(others: seq<Item>, d: GroupDef, rest: seq<Field>, n: GroupDef)
    requires FitsItems(others, d) && Separated(d) && ForeignNext(rest, d) && n in d.nestedGroups
    ensures ForeignNext(PrintItems(others) + rest, n)
  {
    if others == [] {
      assert PrintItems(others) + rest == rest;
    } else {
      assert PrintItem(others[0]) != [];
      assert (PrintItems(others) + rest)[0] == PrintItem(others[0])[0];
    }
  }

  // ----- reserving room for the declared entries -----

  /** `Vec::with_capacity` panics when the entries it reserves would not fit the address space: an entry is two
      vectors, 48 bytes. */
  const ENTRY_LIMIT: nat := 0x7FFF_FFFF_FFFF_FFFF / 48

  /** Every group of the tree, at every level, declares a count that can be reserved. */
  predicate Reservable(t: Tree)
    decreases t
  {
    (CountOf(t.countText).Some? ==> CountOf(t.countText).value <= ENTRY_LIMIT) && ReservableEntries(t.entries)
  }

  predicate ReservableEntries(es: seq<Entry>)
    decreases es
  {
    es == [] || (ReservableEntry(es[0]) && ReservableEntries(es[1..]))
  }

  predicate ReservableEntry(e: Entry)
    decreases e
  {
    ReservableItems(e.items)
  }

  predicate ReservableItems(items: seq<Item>)
    decreases items
  {
    items == [] || (ReservableItem(items[0]) && ReservableItems(items[1..]))
  }

  predicate ReservableItem(i: Item)
    decreases i
  {
    i.Leaf? || Reservable(i.group)
  }

  lemma {:induction false} ReservableAppend(a: seq<Entry>, b: seq<Entry>)
    ensures ReservableEntries(a + b) <==> ReservableEntries(a) && ReservableEntries(b)
  {
    if a == [] {
      assert a + b == b;
    } else {
      assert (a + b)[1..] == a[1..] + b;
      ReservableAppend(a[1..], b);
    }
  }

  lemma DelimiterReservable(items: seq<Item>)
    requires |items| == 1 && items[0].Leaf?
    ensures ReservableItems(items)
  {
    assert items[1..] == [];
    assert ReservableItem(items[0]) && ReservableItems(items[1..]);
  }

  lemma {:induction false} ItemsAppend(a: seq<Item>, b: seq<Item>)
    ensures ReservableItems(a + b) <==> ReservableItems(a) && ReservableItems(b)
  {
    if a == [] {
      assert a + b == b;
    } else {
      assert (a + b)[1..] == a[1..] + b;
      ItemsAppend(a[1..], b);
    }
  }

  /** A count text of one number above the limit is enough to abort, whatever the definition. */
  lemma HugeCountAborts(d: GroupDef, n: u64)
    requires n > ENTRY_LIMIT
    ensures var r := ParseTree([Field(d.countTag, Digits(n))], d); r.Group? && !Reservable(r.tree)
  {
    DigitsValue(n);
  }

  lemma {:induction false} EntriesCount(es: seq<Entry>, d: GroupDef)
    requires FitsEntries(es, d)
    ensures |es| <= |PrintEntries(es)|
  {
    if es != [] {
      var items := es[0].items;
      assert PrintItems(items) == PrintItem(items[0]) + PrintItems(items[1..]);
      EntriesCount(es[1..], d);
    }
  }

  /** Counts that are true can always be reserved: a tree of at most that many fields never aborts. */
  lemma {:induction false} ExactReservable(t: Tree, d: GroupDef)
    requires Fits(t, d) && Exact(t) && |Print(t)| <= ENTRY_LIMIT
    ensures Reservable(t)
    decreases t
  {
    EntriesCount(t.entries, d);
    EntriesReservable(t.entries, d);
  }

  lemma {:induction false} EntriesReservable(es: seq<Entry>, d: GroupDef)
    requires FitsEntries(es, d) && ExactEntries(es) && |PrintEntries(es)| <= ENTRY_LIMIT
    ensures ReservableEntries(es)
    decreases es
  {
    if es != [] {
      EntryReservable(es[0], d);
      EntriesReservable(es[1..], d);
    }
  }

  lemma {:induction false} EntryReservable(e: Entry, d: GroupDef)
    requires FitsEntry(e, d) && ExactEntry(e) && |PrintItems(e.items)| <= ENTRY_LIMIT
    ensures ReservableEntry(e)
    decreases e
  {
    ItemsReservable(e.items[1..], d);
    assert ReservableItem(e.items[0]);
  }

  lemma {:induction false} ItemsReservable(items: seq<Item>, d: GroupDef)
    requires FitsItems(items, d) && ExactItems(items) && |PrintItems(items)| <= ENTRY_LIMIT
    ensures ReservableItems(items)
    decreases items
  {
    if items != [] {
      ItemReservable(items[0], d);
      ItemsReservable(items[1..], d);
    }
  }

  lemma {:induction false} ItemReservable(i: Item, d: GroupDef)
    requires FitsItem(i, d) && ExactItem(i) && |PrintItem(i)| <= ENTRY_LIMIT
    ensures ReservableItem(i)
    decreases i
  {
    match i
    case Leaf(_) =>
    case Sub(g) => ExactReservable(g, FindNested(d.nestedGroups, g.countTag).value);
  }

  // ----- the loops of the source -----

  /** `parse_usize_from_buf`. */
  method ParseCount(text: seq<byte>) returns (r: Option<u64>)
    ensures r == CountOf(text)
  {
    if text == [] {
      return Some(0);
    }
    r := ParseU64(text);
  }

  datatype Outcome = Aborted | Missing | Found(group: RepeatingGroup, next: nat)

  /** The group at `fs` is there, but some count in it cannot be reserved. */
  predicate Aborts(fs: seq<Field>, d: GroupDef) {
    var r := ParseTree(fs, d);
    r.Group? && !Reservable(r.tree)
  }

  /** `RepeatingGroup::parse`: the group read from `start` on, and the index after its last field. */
  method Parse(fs: seq<Field>, start: nat, d: GroupDef) returns (r: Outcome)
    ensures start >= |fs| ==> r == Missing
    ensures start < |fs| ==>
      var t := ParseTree(fs[start..], d);
      && (r.Aborted? <==> Aborts(fs[start..], d)) && (r.Missing? <==> t.NoGroup?)
      && (r.Found? ==> r.group == View(t.tree) && At(fs, r.next, t.rest) && Reads(r.group, fs, start, r.next, d))
    decreases if start < |fs| then |fs| - start else 0, 1
  {
    if start >= |fs| || fs[start].tag != d.countTag {
      return Missing;
    }
    var count := ParseCount(fs[start].value);
    if count.None? {
      return Missing;
    }
    assert fs[start..][1..] == fs[start + 1..];
    if count.value > ENTRY_LIMIT {
      return Aborted;
    }
    r := ParseAllEntries(fs, start + 1, d, count.value);
    if r.Found? {
      ParsedReads(fs, start, r.next, d, ParseTree(fs[start..], d));
    }
  }

  /** The outer loop: at most `count` entries from `start` on. */
  method ParseAllEntries(fs: seq<Field>, start: nat, d: GroupDef, count: u64) returns (r: Outcome)
    requires start <= |fs|
    ensures var all := ParseEntries(fs[start..], d, count);
      && (r.Aborted? <==> !ReservableEntries(all.entries)) && !r.Missing?
      && (r.Found? ==>
            r.group == RepeatingGroup(d.countTag, |all.entries|, ViewEntries(all.entries)) && At(fs, r.next, all.rest))
    decreases |fs| - start, 3
  {
    var entries: seq<GroupEntry> := [];
    var idx := start;
    ghost var done: seq<Entry> := [];
    ghost var all := ParseEntries(fs[start..], d, count);
    var left: nat := count;
    while left > 0 && idx < |fs| && fs[idx].tag == d.delimiterTag
      invariant start <= idx <= |fs|
      invariant entries == ViewEntries(done) && ReservableEntries(done)
      invariant Remaining(all, done, ParseEntries(fs[idx..], d, left))
      decreases left
    {
      ghost var e: Entry;
      var aborted, entry, next;
      aborted, entry, next, e := ParseEntry(fs, idx, d);
      EntryStep(fs, idx, d, left, all, done);
      if aborted {
        return Aborted;
      }
      EntryKept(done, e);
      entries := entries + [entry];
      done := done + [e];
      idx, left := next, left - 1;
    }
    assert done + [] == done;
    return Found(RepeatingGroup(d.countTag, |entries|, entries), idx);
  }

  /** `done` has been read, `tail` is what parsing on from here yields, `all` is the whole. */
  predicate Remaining(all: EntriesResult, done: seq<Entry>, tail: EntriesResult) {
    all.entries == done + tail.entries && all.rest == tail.rest
  }

  lemma EntryTaken(fs: seq<Field>, idx: nat, d: GroupDef, count: nat)
    requires idx < |fs| && fs[idx].tag == d.delimiterTag && count > 0
    ensures var items := ParseItems(fs[idx + 1..], d); var tail := ParseEntries(items.rest, d, count - 1);
      ParseEntries(fs[idx..], d, count)
      == EntriesResult([Entry(Behind(Leaf(fs[idx]), items).items)] + tail.entries, tail.rest)
  {
    assert fs[idx..][1..] == fs[idx + 1..];
  }

  lemma OneMoreEntry(all: EntriesResult, done: seq<Entry>, e: Entry, tail: EntriesResult)
    requires Remaining(all, done, EntriesResult([e] + tail.entries, tail.rest))
    ensures Remaining(all, done + [e], tail)
    ensures !ReservableEntry(e) ==> !ReservableEntries(all.entries)
  {
    assert done + ([e] + tail.entries) == (done + [e]) + tail.entries;
    ReservableAppend(done, [e] + tail.entries);
  }

  /** The entry at `idx` read behind `done`; an entry that cannot be reserved spoils the whole. */
  lemma EntryStep(fs: seq<Field>, idx: nat, d: GroupDef, left: nat, all: EntriesResult, done: seq<Entry>)
    requires idx < |fs| && fs[idx].tag == d.delimiterTag && left > 0
    requires Remaining(all, done, ParseEntries(fs[idx..], d, left))
    ensures var items := ParseItems(fs[idx + 1..], d); var e := Entry(Behind(Leaf(fs[idx]), items).items);
      Remaining(all, done + [e], ParseEntries(items.rest, d, left - 1))
      && (!ReservableEntry(e) ==> !ReservableEntries(all.entries))
  {
    var items := ParseItems(fs[idx + 1..], d);
    EntryTaken(fs, idx, d, left);
    OneMoreEntry(all, done, Entry(Behind(Leaf(fs[idx]), items).items), ParseEntries(items.rest, d, left - 1));
  }

  lemma EntryKept(done: seq<Entry>, e: Entry)
    requires ReservableEntries(done) && ReservableEntry(e)
    ensures ReservableEntries(done + [e]) && ViewEntries(done + [e]) == ViewEntries(done) + [ViewEntry(e)]
  {
    ViewSnoc(done, e);
    ReservableAppend(done, [e]);
  }

  lemma {:induction false} ViewSnoc(es: seq<Entry>, e: Entry)
    ensures ViewEntries(es + [e]) == ViewEntries(es) + [ViewEntry(e)]
  {
    if es != [] {
      ViewSnoc(es[1..], e);
      assert (es + [e])[1..] == es[1..] + [e];
    }
  }

  lemma {:induction false} ItemsSnoc(items: seq<Item>, i: Item)
    ensures Leaves(items + [i]) == Leaves(items) + (if i.Leaf? then [i.field] else [])
    ensures Subs(items + [i]) == Subs(items) + (if i.Sub? then [SubView(i)] else [])
  {
    if items != [] {
      ItemsSnoc(items[1..], i);
      assert (items + [i])[1..] == items[1..] + [i];
    } else {
      assert ([i])[1..] == [];
    }
  }

  /** A parse with one more item in front. */
  function Behind(item: Item, tail: ItemsResult): ItemsResult { ItemsResult([item] + tail.items, tail.rest) }

  /** `items` have been read, `tail` is what parsing on from here yields, `all` is the whole. */
  predicate Progress(all: ItemsResult, items: seq<Item>, tail: ItemsResult) {
    all.items == items + tail.items && all.rest == tail.rest
  }

  lemma ProgressOne(all: ItemsResult, items: seq<Item>, item: Item, tail: ItemsResult)
    requires Progress(all, items, Behind(item, tail))
    ensures Progress(all, items + [item], tail)
  {
    assert items + ([item] + tail.items) == (items + [item]) + tail.items;
  }

  datatype Taken = Nothing | Overflow | TookField(field: Field) | TookGroup(group: RepeatingGroup)

  /** The body of the inner loop: a nested group, a member field, or the end of the entry. */
  method ParseItem(fs: seq<Field>, idx: nat, d: GroupDef) returns (taken: Taken, next: nat, ghost item: Item)
    requires idx < |fs|
    ensures taken.Nothing? ==> ParseItems(fs[idx..], d) == ItemsResult([], fs[idx..])
    ensures taken.TookField? ==> item == Leaf(taken.field)
    ensures taken.TookGroup? ==> item.Sub? && taken.group == SubView(item)
    ensures taken.Overflow? ==>
      !ReservableItem(item) && ParseItems(fs[idx..], d).items != [] && ParseItems(fs[idx..], d).items[0] == item
    ensures taken.TookField? || taken.TookGroup? ==>
      && idx < next <= |fs| && ReservableItem(item)
      && ParseItems(fs[idx..], d) == Behind(item, ParseItems(fs[next..], d))
    decreases |fs| - idx, 2
  {
    var tag := fs[idx].tag;
    next, item := idx, Leaf(fs[idx]);
    if tag == d.delimiterTag {
      return Nothing, next, item;
    }
    var n := FindNested(d.nestedGroups, tag);
    if n.Some? {
      var sub := Parse(fs, idx, n.value);
      if !sub.Missing? {
        item := Sub(ParseTree(fs[idx..], n.value).tree);
        match sub {
          case Aborted => return Overflow, next, item;
          case Found(group, end) => return TookGroup(group), end, item;
        }
      }
    }
    if IsMember(d, tag) {
      assert fs[idx..][1..] == fs[idx + 1..];
      return TookField(fs[idx]), idx + 1, item;
    }
    return Nothing, next, item;
  }

  /** One entry: the delimiter at `start`, then members and nested groups until the next delimiter
      or a foreign field. */
  method ParseEntry(fs: seq<Field>, start: nat, d: GroupDef)
    returns (aborted: bool, entry: GroupEntry, idx: nat, ghost e: Entry)
    requires start < |fs|
    ensures var all := Behind(Leaf(fs[start]), ParseItems(fs[start + 1..], d));
      && (aborted <==> !ReservableItems(all.items))
      && (!aborted ==> e == Entry(all.items) && entry == ViewEntry(e) && start < idx && At(fs, idx, all.rest))
    decreases |fs| - start, 2
  {
    var fields, nested: seq<RepeatingGroup> := [fs[start]], [];
    idx := start + 1;
    ghost var items := [Leaf(fs[start])];
    ghost var all := Behind(Leaf(fs[start]), ParseItems(fs[idx..], d));
    entry, e := GroupEntry(fields, nested), Entry(items);
    DelimiterReservable(items);
    while idx < |fs|
      invariant start < idx <= |fs| && fields == Leaves(items) && nested == Subs(items) && ReservableItems(items)
      invariant Progress(all, items, ParseItems(fs[idx..], d))
      decreases |fs| - idx
    {
      ghost var item: Item;
      var taken, next;
      taken, next, item := ParseItem(fs, idx, d);
      if taken.Nothing? {
        break;
      }
      if taken.Overflow? {
        ItemsAppend(items, ParseItems(fs[idx..], d).items);
        return true, entry, idx, e;
      }
      ItemsSnoc(items, item);
      ItemsAppend(items, [item]);
      ProgressOne(all, items, item, ParseItems(fs[next..], d));
      if taken.TookField? {
        fields := fields + [taken.field];
      } else {
        nested := nested + [taken.group];
      }
      items := items + [item];
      idx := next;
    }
    assert items + [] == items;
    aborted, entry, e := false, GroupEntry(fields, nested), Entry(items);
  }
}
