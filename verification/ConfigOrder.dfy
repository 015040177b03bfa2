/** The order of the printed configuration: category after category, and within one in the order of its keys. */
module ConfigOrder {
  import opened DottedKeys
  import opened ConfigPrinter
  import opened ConfigRoundTrip

  /** `a` comes before `b`: at the first character where they differ, or because `b` goes on where `a` ends. */
  ghost predicate ComesBefore(a: string, b: string) {
    exists n: nat :: n <= |a| && n < |b| && DiffersAt(a, b, n)
  }

  predicate DiffersAt(a: string, b: string, n: nat)
    requires n <= |a| && n < |b|
  {
    a[..n] == b[..n] && (n == |a| || a[n] < b[n])
  }

  lemma {:induction false} AtMostComesBefore(a: string, b: string)
    requires AtMost(a, b) && a != b
    ensures ComesBefore(a, b)
  {
    if a == "" {
      assert DiffersAt(a, b, 0);
    } else if a[0] < b[0] {
      assert DiffersAt(a, b, 0);
    } else {
      assert a == [a[0]] + a[1..] && b == [b[0]] + b[1..];
      AtMostComesBefore(a[1..], b[1..]);
      var n: nat :| n <= |a[1..]| && n < |b[1..]| && DiffersAt(a[1..], b[1..], n);
      assert a[..n + 1] == [a[0]] + a[1..][..n] && b[..n + 1] == [b[0]] + b[1..][..n];
      assert DiffersAt(a, b, n + 1);
    }
  }

  /** The lines that set a value. */
  function Leaves(lines: seq<Line>): seq<Line> {
    if lines == [] then []
    else Leaves(lines[..|lines| - 1]) + if lines[|lines| - 1].Leaf? then [lines[|lines| - 1]] else []
  }

  /** The line that sets the value of a key: at the depth of its dots, under its last part. */
  function LeafOf(registry: Registry, key: string): Line
    requires key in registry
  {
    var path := Split(key);
    Leaf(|path| - 1, path[|path| - 1], registry[key].value)
  }

  /** The leaves are those of the keys, one by one. */
  ghost predicate LeavesOfKeys(registry: Registry, lines: seq<Line>, keys: seq<string>) {
    && |lines| == |keys|
    && forall i :: 0 <= i < |keys| ==> keys[i] in registry && lines[i] == LeafOf(registry, keys[i])
  }

  lemma {:induction false} LeavesAppend(a: seq<Line>, b: seq<Line>)
    ensures Leaves(a + b) == Leaves(a) + Leaves(b)
    decreases |b|
  {
    if b == [] {
      assert a + b == a;
    } else {
      LeavesAppend(a, b[..|b| - 1]);
      assert (a + b)[..|a + b| - 1] == a + b[..|b| - 1];
    }
  }

  lemma LeavesOfOne(line: Line)
    ensures Leaves([line]) == if line.Leaf? then [line] else []
  {
    assert [line][..0] == [];
  }

  lemma {:induction false} NoLeavesInHeaders(sections: Path, from: nat)
    requires from <= |sections|
    ensures Leaves(Headers(sections, from)) == []
    decreases |sections| - from
  {
    hide Leaves;
    if from < |sections| {
      NoLeavesInHeaders(sections, from + 1);
      LeavesAppend([Section(from, sections[from])], Headers(sections, from + 1));
      LeavesOfOne(Section(from, sections[from]));
    } else {
      assert Leaves([]) == [] by { NoLeaves(); }
    }
  }

  lemma NoLeaves()
    ensures Leaves([]) == []
  {
  }

  function LeafFor(e: Entry): Line
    requires e.Printable()
  {
    Leaf(|e.path| - 1, e.path[|e.path| - 1], e.value)
  }

  lemma LeavesOfEntry(open: Path, e: Entry)
    requires e.Printable()
    ensures Leaves(EntryLines(open, e)) == [LeafFor(e)]
  {
    hide Leaves, Headers;
    LeavesAppend(Headers(e.Sections(), CommonLen(open, e.Sections())), [LeafFor(e)]);
    NoLeavesInHeaders(e.Sections(), CommonLen(open, e.Sections()));
    LeavesOfOne(LeafFor(e));
  }

  ghost predicate LeavesForAll(lines: seq<Line>, entries: seq<Entry>)
    requires AllPrintable(entries)
  {
    |lines| == |entries| && forall i :: 0 <= i < |entries| ==> lines[i] == LeafFor(entries[i])
  }

  lemma LeavesSnoc(lines: seq<Line>, entries: seq<Entry>, e: Entry)
    requires AllPrintable(entries) && e.Printable() && LeavesForAll(lines, entries)
    ensures AllPrintable(entries + [e]) && LeavesForAll(lines + [LeafFor(e)], entries + [e])
  {
    hide LeafFor;
  }

  lemma NoLeavesForNone()
    ensures AllPrintable([]) && LeavesForAll([], [])
  {
  }

  lemma {:induction false} LeavesOfEntries(open: Path, entries: seq<Entry>)
    requires AllPrintable(entries)
    ensures LeavesForAll(Leaves(Lines(open, entries)), entries)
  {
    hide *;
    if entries == [] {
      NoLeaves();
      NoLines(open);
      NoLeavesForNone();
    } else {
      var n := |entries| - 1;
      var init, e := entries[..n], entries[n];
      assert init + [e] == entries;
      PrintableParts(entries, n);
      LeavesOfEntries(open, init);
      LinesSnoc(open, init, e);
      LeavesAppend(Lines(open, init), EntryLines(OpenAfter(open, init), e));
      LeavesOfEntry(OpenAfter(open, init), e);
      LeavesSnoc(Leaves(Lines(open, init)), init, e);
    }
  }

  lemma KeyLeaves(registry: Registry, lines: seq<Line>, entries: seq<Entry>, keys: seq<string>)
    requires AllPrintable(entries) && LeavesForAll(lines, entries) && KeyByKey(registry, keys, entries)
    ensures LeavesOfKeys(registry, lines, keys)
  {
    hide Split;
  }

  lemma CategoryHasLeaves(registry: Registry, cat: string)
    ensures Leaves(CategoryLines(registry, cat)) == Leaves(Lines([cat], CategoryEntries(registry, cat)))
  {
    hide Leaves, Lines, EntriesOf, CategoryKeys;
    if CategoryKeys(registry, cat) != [] {
      LeavesAppend([Section(0, cat)], Lines([cat], CategoryEntries(registry, cat)));
      LeavesOfOne(Section(0, cat));
    } else {
      NothingPrinted(registry, cat);
    }
  }

  lemma EntriesByKey(registry: Registry, cat: string)
    requires WellKeyed(registry)
    ensures KeyByKey(registry, CategoryKeys(registry, cat), CategoryEntries(registry, cat))
  {
    hide EntriesOf, KeyByKey, Sorted, Split;
    EntriesAreKeys(registry, cat, CategoryKeys(registry, cat));
  }

  /** A category prints the leaves of its keys, in their order. */
  lemma CategoryInOrder(registry: Registry, cat: string)
    requires WellKeyed(registry)
    ensures LeavesOfKeys(registry, Leaves(CategoryLines(registry, cat)), CategoryKeys(registry, cat))
  {
    hide *;
    var entries := CategoryEntries(registry, cat);
    EntriesByKey(registry, cat);
    CategoryHasLeaves(registry, cat);
    LeavesOfEntries([cat], entries);
    KeyLeaves(registry, Leaves(Lines([cat], entries)), entries, CategoryKeys(registry, cat));
  }

  /** The category of `a` stands before that of `b`, or `a` comes before `b` in the same one. */
  ghost predicate InOrder(registry: Registry, order: seq<string>, a: string, b: string)
    requires a in registry && b in registry
  {
    || (registry[a].category == registry[b].category && ComesBefore(a, b))
    || (exists p, q :: 0 <= p < q < |order| && order[p] == registry[a].category && order[q] == registry[b].category)
  }

  /** The values are set category by category in the given order, and inside a category in the order of its
      keys, each key once for every time its category is listed. */
  lemma {:induction false} PrintedInOrder(registry: Registry, order: seq<string>) returns (keys: seq<string>)
    requires WellKeyed(registry)
    ensures LeavesOfKeys(registry, Leaves(Document(registry, order)), keys)
    ensures forall k :: k in keys <==> k in registry && registry[k].category in order
    ensures forall i, j :: 0 <= i < j < |keys| ==> InOrder(registry, order, keys[i], keys[j])
  {
    keys := [];
    if order != [] {
      hide *;
      var n := |order| - 1;
      var init, cat := order[..n], order[n];
      assert order == init + [cat];
      var before := PrintedInOrder(registry, init);
      var last := CategoryKeys(registry, cat);
      keys := before + last;
      LeavesOfNext(registry, order, before);
      forall i, j | 0 <= i < j < |keys| ensures InOrder(registry, order, keys[i], keys[j]) {
        if j < |before| {
          assert keys[i] == before[i] && keys[j] == before[j];
          StillInOrder(registry, init, cat, before[i], before[j]);
        } else if i >= |before| {
          SortedInOrder(registry, order, last, i - |before|, j - |before|);
        } else {
          assert keys[i] in before && keys[j] in last;
          LaterCategory(registry, init, cat, keys[i], keys[j]);
        }
      }
    } else {
      NoLeaves();
    }
  }

  lemma LeavesOfNext(registry: Registry, order: seq<string>, before: seq<string>)
    requires WellKeyed(registry) && order != []
    requires LeavesOfKeys(registry, Leaves(Document(registry, order[..|order| - 1])), before)
    ensures LeavesOfKeys(registry, Leaves(Document(registry, order)), before + CategoryKeys(registry, order[|order| - 1]))
  {
    hide *;
    var init, cat := order[..|order| - 1], order[|order| - 1];
    CategoryInOrder(registry, cat);
    LeavesAppend(Document(registry, init), CategoryLines(registry, cat));
    DocumentSnoc(registry, order);
    KeysAppend(registry, Leaves(Document(registry, init)), before,
               Leaves(CategoryLines(registry, cat)), CategoryKeys(registry, cat));
  }

  lemma DocumentSnoc(registry: Registry, order: seq<string>)
    requires order != []
    ensures Document(registry, order)
            == Document(registry, order[..|order| - 1]) + CategoryLines(registry, order[|order| - 1])
  {
    hide CategoryLines;
  }

  lemma KeysAppend(registry: Registry, a: seq<Line>, keysA: seq<string>, b: seq<Line>, keysB: seq<string>)
    requires LeavesOfKeys(registry, a, keysA) && LeavesOfKeys(registry, b, keysB)
    ensures LeavesOfKeys(registry, a + b, keysA + keysB)
  {
    hide LeafOf;
  }

  lemma StillInOrder(registry: Registry, init: seq<string>, cat: string, a: string, b: string)
    requires a in registry && b in registry && InOrder(registry, init, a, b)
    ensures InOrder(registry, init + [cat], a, b)
  {
    var order := init + [cat];
    if !(registry[a].category == registry[b].category && ComesBefore(a, b)) {
      var p, q :| 0 <= p < q < |init| && init[p] == registry[a].category && init[q] == registry[b].category;
      assert order[p] == init[p] && order[q] == init[q];
    }
  }

  lemma SortedInOrder(registry: Registry, order: seq<string>, keys: seq<string>, i: nat, j: nat)
    requires i < j < |keys| && Sorted(keys) && keys[i] in registry && keys[j] in registry
    requires registry[keys[i]].category == registry[keys[j]].category
    ensures InOrder(registry, order, keys[i], keys[j])
  {
    AtMostComesBefore(keys[i], keys[j]);
  }

  lemma LaterCategory(registry: Registry, init: seq<string>, cat: string, a: string, b: string)
    requires a in registry && b in registry && registry[a].category in init && registry[b].category == cat
    ensures InOrder(registry, init + [cat], a, b)
  {
    var order := init + [cat];
    var p :| 0 <= p < |init| && init[p] == registry[a].category;
    assert order[p] == registry[a].category && order[|init|] == cat;
  }
}
