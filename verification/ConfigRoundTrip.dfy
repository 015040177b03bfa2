/** Reading the printed configuration back as a tree gives the original settings, and opens every section
    once, exactly when no key is a dotted beginning of another. */
module ConfigRoundTrip {
  import opened Types
  import opened DottedKeys
  import opened ConfigPrinter

  // ---------- a strict reader ----------

  /** What has been read: the open sections, the values, and every section seen. */
  datatype Tree = Tree(open: Path, leaves: map<Path, string>, sections: set<Path>)

  const EMPTY_TREE := Tree([], map[], {})

  predicate Free(t: Tree, path: Path) {
    path !in t.leaves && path !in t.sections
  }

  /** One line read by its depth; a name that its parent already has is an error, as in any mapping. */
  function ReadLine(t: Tree, line: Line): Option<Tree> {
    if line.depth > |t.open| then None
    else
      var path := t.open[..line.depth] + [line.name];
      if !Free(t, path) then None
      else if line.Section? then Some(Tree(path, t.leaves, t.sections + {path}))
      else Some(Tree(t.open[..line.depth], t.leaves[path := line.value], t.sections))
  }

  /** The tree read from some lines, unless one of them cannot be read. */
  function Read(t: Tree, lines: seq<Line>): Option<Tree> {
    if lines == [] then Some(t)
    else
      match Read(t, lines[..|lines| - 1])
      case None => None
      case Some(before) => ReadLine(before, lines[|lines| - 1])
  }

  lemma {:induction false} ReadAppend(t: Tree, a: seq<Line>, b: seq<Line>)
    ensures Read(t, a + b) == match Read(t, a) case None => None case Some(mid) => Read(mid, b)
    decreases |b|
  {
    hide ReadLine;
    if b == [] {
      assert a + b == a;
    } else {
      var n := |b| - 1;
      assert (a + b)[..|a| + n] == a + b[..n];
      ReadAppend(t, a, b[..n]);
    }
  }

  lemma ReadOne(t: Tree, line: Line)
    ensures Read(t, [line]) == ReadLine(t, line)
  {
    assert [line][..0] == [] && Read(t, []) == Some(t);
  }

  // ---------- reading one setting ----------

  /** The sections of a path from length `from + 1` on. */
  function Opened(sections: Path, from: nat): set<Path>
    requires from <= |sections|
  {
    set k | from < k <= |sections| :: sections[..k]
  }

  lemma OpenedStep(sections: Path, from: nat)
    requires from < |sections|
    ensures Opened(sections, from) == {sections[..from + 1]} + Opened(sections, from + 1)
    ensures sections[..from + 1] !in Opened(sections, from + 1)
  {
  }

  ghost predicate AllFree(t: Tree, paths: set<Path>) {
    forall p :: p in paths ==> Free(t, p)
  }

  lemma {:induction false} ReadHeaders(t: Tree, sections: Path, from: nat)
    requires from <= |sections| && from <= |t.open| && t.open[..from] == sections[..from]
    ensures var r := Read(t, Headers(sections, from));
            && (r.Some? <==> AllFree(t, Opened(sections, from)))
            && (r.Some? ==> r.value == Tree(if from == |sections| then t.open else sections, t.leaves,
                  t.sections + Opened(sections, from)))
    decreases |sections| - from
  {
    hide Opened;
    if from == |sections| {
      NothingOpened(sections);
      assert t.sections + {} == t.sections;
    } else {
      var head, rest := Section(from, sections[from]), Headers(sections, from + 1);
      var path := sections[..from + 1];
      ReadAppend(t, [head], rest);
      ReadOne(t, head);
      OpenedStep(sections, from);
      assert t.open[..from] + [sections[from]] == path;
      if Free(t, path) {
        var t1 := Tree(path, t.leaves, t.sections + {path});
        assert path[..from + 1] == path;
        ReadHeaders(t1, sections, from + 1);
        assert from + 1 == |sections| ==> path == sections;
        assert t1.sections + Opened(sections, from + 1) == t.sections + Opened(sections, from);
      }
    }
  }

  lemma NothingOpened(sections: Path)
    ensures Opened(sections, |sections|) == {}
  {
  }

  /** The sections a setting opens when others are open. */
  function Opening(open: Path, e: Entry): set<Path>
    requires e.Printable()
  {
    Opened(e.Sections(), CommonLen(open, e.Sections()))
  }

  /** Reading the lines of one setting, with the sections of the one before open. */
  lemma ReadEntry(t: Tree, e: Entry)
    requires e.Printable()
    ensures var r := Read(t, EntryLines(t.open, e));
            && (r.Some? <==> AllFree(t, Opening(t.open, e)) && Free(t, e.path))
            && (r.Some? ==> r.value == Tree(e.Sections(), t.leaves[e.path := e.value], t.sections + Opening(t.open, e)))
  {
    hide Headers, ReadLine, Read, AllFree, Opened, CommonLen;
    var sections := e.Sections();
    var common := CommonLen(t.open, sections);
    var leaf := Leaf(|sections|, e.path[|sections|], e.value);
    ReadHeaders(t, sections, common);
    ReadAppend(t, Headers(sections, common), [leaf]);
    var mid := Read(t, Headers(sections, common));
    if mid.Some? {
      ReadOne(mid.value, leaf);
      NotItsOwnSection(t.open, e);
      ReadLeaf(mid.value, e);
    }
  }

  lemma NotItsOwnSection(open: Path, e: Entry)
    requires e.Printable()
    ensures e.path !in Opening(open, e)
  {
  }

  lemma ReadLeaf(t: Tree, e: Entry)
    requires e.Printable() && |t.open| >= |e.Sections()| && t.open[..|e.Sections()|] == e.Sections()
    ensures ReadLine(t, Leaf(|e.path| - 1, e.path[|e.path| - 1], e.value))
            == if Free(t, e.path) then Some(Tree(e.Sections(), t.leaves[e.path := e.value], t.sections)) else None
  {
    assert e.Sections() + [e.path[|e.path| - 1]] == e.path;
  }

  // ---------- reading all settings ----------

  /** A tree that holds exactly these settings and the sections they are in. */
  ghost predicate Holding(t: Tree, entries: seq<Entry>)
    requires AllPrintable(entries)
  {
    && t.open == OpenAfter([], entries)
    && (forall p :: p in t.leaves <==> PathOfSome(p, entries))
    && (forall i :: 0 <= i < |entries| ==> entries[i].path in t.leaves && t.leaves[entries[i].path] == entries[i].value)
    && SectionsHeld(t.sections, entries)
  }

  ghost predicate DistinctPaths(entries: seq<Entry>) {
    forall i, j :: 0 <= i < j < |entries| ==> entries[i].path != entries[j].path
  }

  /** Settings in one section are neighbours. */
  ghost predicate Grouped(entries: seq<Entry>) {
    forall q, i, j, k :: 0 <= i <= j <= k < |entries| && Inside(q, entries[i].path) && Inside(q, entries[k].path)
      ==> Inside(q, entries[j].path)
  }

  /** No setting's path is a section of another. */
  ghost predicate NoneInside(entries: seq<Entry>) {
    forall i, j :: 0 <= i < |entries| && 0 <= j < |entries| ==> !Inside(entries[i].path, entries[j].path)
  }

  /** The sections a setting opens are those it is in and the open ones are not. */
  lemma OpeningExactly(open: Path, e: Entry, p: Path)
    requires e.Printable()
    ensures p in Opening(open, e) <==> Inside(p, e.path) && !(p <= open)
  {
    var sections := e.Sections();
    var c := CommonLen(open, sections);
    if Inside(p, e.path) {
      assert sections[..|p|] == p;
      if |p| <= c { assert open[..c][..|p|] == sections[..c][..|p|]; }
    }
    if p in Opening(open, e) {
      var k :| c < k <= |sections| && p == sections[..k];
      assert e.path[..k] == p;
    }
  }

  lemma OpenIsInside(entries: seq<Entry>, p: Path)
    requires AllPrintable(entries) && p != []
    ensures p <= OpenAfter([], entries) <==> entries != [] && Inside(p, entries[|entries| - 1].path)
  {
    if entries != [] {
      var path := entries[|entries| - 1].path;
      if Inside(p, path) { assert path[..|path| - 1][..|p|] == p; }
    }
  }

  /** Among grouped settings, a section of the next one that was seen before is still open. */
  lemma SeenIsOpen(t: Tree, entries: seq<Entry>, e: Entry, p: Path)
    requires AllPrintable(entries) && e.Printable() && Holding(t, entries) && Grouped(entries + [e])
    requires Inside(p, e.path)
    ensures p in t.sections <==> p <= t.open
  {
    var all, n := entries + [e], |entries|;
    OpenIsInside(entries, p);
    if p in t.sections {
      var i :| 0 <= i < n && Inside(p, entries[i].path);
      assert Inside(p, all[i].path) && Inside(p, all[n].path);
      assert Inside(p, all[n - 1].path);
    }
  }

  ghost predicate SectionsHeld(sections: set<Path>, entries: seq<Entry>) {
    forall p :: p in sections <==> InSome(p, entries)
  }

  ghost predicate InSome(p: Path, entries: seq<Entry>) {
    exists i :: 0 <= i < |entries| && Inside(p, entries[i].path)
  }

  ghost predicate PathOfSome(p: Path, entries: seq<Entry>) {
    exists i :: 0 <= i < |entries| && entries[i].path == p
  }

  lemma SnocSome(p: Path, entries: seq<Entry>, e: Entry)
    ensures InSome(p, entries + [e]) <==> InSome(p, entries) || Inside(p, e.path)
    ensures PathOfSome(p, entries + [e]) <==> PathOfSome(p, entries) || p == e.path
  {
    hide Inside;
    var all, n := entries + [e], |entries|;
    assert all[n] == e;
    if InSome(p, entries) {
      var i :| 0 <= i < n && Inside(p, entries[i].path);
      assert all[i] == entries[i];
    }
    if PathOfSome(p, entries) {
      var i :| 0 <= i < n && entries[i].path == p;
      assert all[i] == entries[i];
    }
  }

  lemma SectionsSnoc(t: Tree, entries: seq<Entry>, e: Entry)
    requires AllPrintable(entries) && e.Printable() && Holding(t, entries) && Grouped(entries + [e])
    ensures SectionsHeld(t.sections + Opening(t.open, e), entries + [e])
  {
    hide Opening, Grouped, Inside;
    forall p ensures p in t.sections + Opening(t.open, e) <==> InSome(p, entries + [e]) {
      OpeningExactly(t.open, e, p);
      if Inside(p, e.path) { SeenIsOpen(t, entries, e, p); }
      SnocSome(p, entries, e);
    }
  }

  lemma LeavesSnoc(leaves: map<Path, string>, entries: seq<Entry>, e: Entry)
    requires forall p :: p in leaves <==> PathOfSome(p, entries)
    requires forall i :: 0 <= i < |entries| ==> entries[i].path in leaves && leaves[entries[i].path] == entries[i].value
    requires e.path !in leaves
    ensures var after, all := leaves[e.path := e.value], entries + [e];
            && (forall p :: p in after <==> PathOfSome(p, all))
            && (forall i :: 0 <= i < |all| ==> all[i].path in after && after[all[i].path] == all[i].value)
  {
    hide PathOfSome;
    var after, all := leaves[e.path := e.value], entries + [e];
    forall p ensures p in after <==> PathOfSome(p, all) {
      SnocSome(p, entries, e);
    }
  }

  lemma HoldingSnoc(t: Tree, entries: seq<Entry>, e: Entry)
    requires AllPrintable(entries) && e.Printable() && Holding(t, entries) && Grouped(entries + [e])
    requires Free(t, e.path)
    ensures AllPrintable(entries + [e])
    ensures Holding(Tree(e.Sections(), t.leaves[e.path := e.value], t.sections + Opening(t.open, e)), entries + [e])
  {
    hide Opening, Grouped, InSome, PathOfSome;
    SectionsSnoc(t, entries, e);
    LeavesSnoc(t.leaves, entries, e);
  }

  lemma NoneInsidePrefix(entries: seq<Entry>, e: Entry)
    ensures NoneInside(entries + [e]) <==>
              NoneInside(entries) && forall i :: 0 <= i < |entries| ==>
                  !Inside(entries[i].path, e.path) && !Inside(e.path, entries[i].path)
  {
    var all, n := entries + [e], |entries|;
    assert all[n] == e && forall i :: 0 <= i < n ==> all[i] == entries[i];
    if NoneInside(all) {
      forall i | 0 <= i < n ensures !Inside(entries[i].path, e.path) && !Inside(e.path, entries[i].path) {
        assert !Inside(all[i].path, all[n].path) && !Inside(all[n].path, all[i].path);
      }
      forall i, j | 0 <= i < n && 0 <= j < n ensures !Inside(entries[i].path, entries[j].path) {
        assert !Inside(all[i].path, all[j].path);
      }
    }
  }

  /** The next setting can be read exactly when its path is no section and no section of it is a path. */
  lemma NextCanBeRead(t: Tree, entries: seq<Entry>, e: Entry)
    requires AllPrintable(entries) && e.Printable() && Holding(t, entries) && Grouped(entries + [e])
    requires NoneInside(entries) && forall i :: 0 <= i < |entries| ==> entries[i].path != e.path
    ensures AllFree(t, Opening(t.open, e)) && Free(t, e.path) <==> NoneInside(entries + [e])
  {
    hide Opening;
    NoneInsidePrefix(entries, e);
    if NoneInside(entries + [e]) {
      forall p | p in Opening(t.open, e) ensures Free(t, p) {
        OpeningExactly(t.open, e, p);
        SeenIsOpen(t, entries, e, p);
      }
    }
    if AllFree(t, Opening(t.open, e)) && Free(t, e.path) {
      forall i | 0 <= i < |entries| ensures !Inside(entries[i].path, e.path) && !Inside(e.path, entries[i].path) {
        var p := entries[i].path;
        OpeningExactly(t.open, e, p);
        if Inside(p, e.path) { SeenIsOpen(t, entries, e, p); }
      }
    }
  }

  lemma GroupedPrefix(entries: seq<Entry>, n: nat)
    requires n <= |entries| && Grouped(entries)
    ensures Grouped(entries[..n])
  {
    var init := entries[..n];
    forall q, i, j, k | 0 <= i <= j <= k < n && Inside(q, init[i].path) && Inside(q, init[k].path)
      ensures Inside(q, init[j].path)
    {
      assert Inside(q, entries[i].path) && Inside(q, entries[k].path);
    }
  }

  /** Grouped settings with distinct paths are read back exactly, if and only if no path is a section of another. */
  lemma {:induction false} LinesReadBack(entries: seq<Entry>)
    requires AllPrintable(entries) && Grouped(entries) && DistinctPaths(entries)
    ensures Read(EMPTY_TREE, Lines([], entries)).Some? <==> NoneInside(entries)
    ensures Read(EMPTY_TREE, Lines([], entries)).Some? ==> Holding(Read(EMPTY_TREE, Lines([], entries)).value, entries)
  {
    if entries == [] {
      assert Holding(EMPTY_TREE, []);
    } else {
      hide *;
      var n := |entries| - 1;
      var init, e := entries[..n], entries[n];
      assert init + [e] == entries;
      PrintableParts(entries, n);
      GroupedPrefix(entries, n);
      DistinctLast(init, e);
      LinesReadBack(init);
      NoneInsidePrefix(init, e);
      LinesSnoc([], init, e);
      ReadAppend(EMPTY_TREE, Lines([], init), EntryLines(OpenAfter([], init), e));
      var r := Read(EMPTY_TREE, Lines([], init));
      if r.Some? {
        HoldingOpen(r.value, init);
        ReadEntry(r.value, e);
        NextCanBeRead(r.value, init, e);
        if NoneInside(entries) { HoldingSnoc(r.value, init, e); }
      }
    }
  }

  lemma HoldingOpen(t: Tree, entries: seq<Entry>)
    requires AllPrintable(entries) && Holding(t, entries)
    ensures t.open == OpenAfter([], entries)
  {
  }

  lemma DistinctLast(entries: seq<Entry>, e: Entry)
    requires DistinctPaths(entries + [e])
    ensures DistinctPaths(entries) && forall i :: 0 <= i < |entries| ==> entries[i].path != e.path
  {
    var all := entries + [e];
    assert all[|entries|] == e && forall i :: 0 <= i < |entries| ==> all[i] == entries[i];
  }

  // ---------- once each ----------

  function SectionCount(lines: seq<Line>): nat {
    if lines == [] then 0
    else SectionCount(lines[..|lines| - 1]) + if lines[|lines| - 1].Section? then 1 else 0
  }

  /** What is read without error has opened each of its sections once and set each of its values once. */
  lemma {:induction false} OpenedOnce(lines: seq<Line>)
    ensures var r := Read(EMPTY_TREE, lines);
            r.Some? ==> |r.value.sections| == SectionCount(lines) && |r.value.leaves| == |lines| - SectionCount(lines)
  {
    if lines != [] { OpenedOnce(lines[..|lines| - 1]); }
  }

  // ---------- a registry ----------

  /** Every key is its category, a dot, and more. */
  ghost predicate WellKeyed(registry: Registry) {
    forall k :: k in registry ==> |Split(k)| >= 2 && Split(k)[0] == registry[k].category
  }

  /** No key, with a dot after it, begins another key. */
  ghost predicate NoDottedPrefix(registry: Registry) {
    forall a, b :: a in registry && b in registry ==> !(a + [DOT] <= b)
  }

  ghost predicate EachOnce(order: seq<string>) {
    forall i, j :: 0 <= i < j < |order| ==> order[i] != order[j]
  }

  lemma {:induction false} EntriesAreKeys(registry: Registry, cat: string, keys: seq<string>)
    requires WellKeyed(registry) && forall k :: k in keys ==> k in registry && registry[k].category == cat
    ensures KeyByKey(registry, keys, EntriesOf(registry, cat, keys))
  {
    if keys != [] {
      var n := |keys| - 1;
      assert keys[n] in keys && keys[..n + 1] == keys;
      EntriesAreKeys(registry, cat, keys[..n]);
      EntriesSnoc(registry, cat, keys, n);
      hide Split, EntriesOf;
      assert [cat] + Split(keys[n])[1..] == Split(keys[n]);
    }
  }

  /** All settings printed for these categories, one after the other. */
  function AllEntries(registry: Registry, order: seq<string>): (entries: seq<Entry>)
    ensures AllPrintable(entries)
  {
    if order == [] then []
    else AllEntries(registry, order[..|order| - 1]) + CategoryEntries(registry, order[|order| - 1])
  }

  /** This setting is a key of one of the categories. */
  ghost predicate FromKey(registry: Registry, e: Entry, cats: seq<string>) {
    && |e.path| >= 2 && e.path[0] in cats
    && exists k :: k in registry && Split(k) == e.path && registry[k].value == e.value
  }

  /** The settings of these categories are exactly the keys of these categories. */
  ghost predicate Covers(registry: Registry, entries: seq<Entry>, cats: seq<string>) {
    && (forall i :: 0 <= i < |entries| ==> FromKey(registry, entries[i], cats))
    && (forall k :: k in registry && registry[k].category in cats ==> PathOfSome(Split(k), entries))
  }

  /** Entry `i` is key `i`. */
  ghost predicate KeyByKey(registry: Registry, keys: seq<string>, entries: seq<Entry>) {
    && |entries| == |keys|
    && forall i :: 0 <= i < |keys| ==> keys[i] in registry && entries[i] == Entry(Split(keys[i]), registry[keys[i]].value)
  }

  lemma KeysDistinct(registry: Registry, keys: seq<string>, entries: seq<Entry>)
    requires KeyByKey(registry, keys, entries) && Sorted(keys)
    ensures DistinctPaths(entries)
  {
    hide Split;
    forall i, j | 0 <= i < j < |entries| ensures entries[i].path != entries[j].path {
      if Split(keys[i]) == Split(keys[j]) { SplitInjective(keys[i], keys[j]); }
    }
  }

  lemma KeysGrouped(registry: Registry, keys: seq<string>, entries: seq<Entry>)
    requires KeyByKey(registry, keys, entries) && Sorted(keys)
    ensures Grouped(entries)
  {
    hide Split, Inside, Sorted;
    forall q, i, j, k | 0 <= i <= j <= k < |entries| && Inside(q, entries[i].path) && Inside(q, entries[k].path)
      ensures Inside(q, entries[j].path)
    {
      SectionsAreTogether(keys, q, i, j, k);
    }
  }

  lemma KeysCovered(registry: Registry, cat: string, keys: seq<string>, entries: seq<Entry>)
    requires KeyByKey(registry, keys, entries) && WellKeyed(registry)
    requires forall k :: k in keys <==> k in registry && registry[k].category == cat
    ensures Covers(registry, entries, [cat])
  {
    hide Split;
    forall i | 0 <= i < |entries| ensures FromKey(registry, entries[i], [cat]) {
      assert keys[i] in keys && Split(keys[i]) == entries[i].path;
    }
    forall k | k in registry && registry[k].category in [cat] ensures PathOfSome(Split(k), entries) {
      assert k in keys;
      var i :| 0 <= i < |keys| && keys[i] == k;
      assert entries[i].path == Split(k);
    }
  }

  lemma CategoryFacts(registry: Registry, cat: string)
    requires WellKeyed(registry)
    ensures var entries := CategoryEntries(registry, cat);
            Covers(registry, entries, [cat]) && Grouped(entries) && DistinctPaths(entries)
    ensures CategoryEntries(registry, cat) == [] <==> CategoryKeys(registry, cat) == []
  {
    hide Grouped, DistinctPaths, Covers, Sorted;
    var keys, entries := CategoryKeys(registry, cat), CategoryEntries(registry, cat);
    EntriesAreKeys(registry, cat, keys);
    KeysDistinct(registry, keys, entries);
    KeysGrouped(registry, keys, entries);
    KeysCovered(registry, cat, keys, entries);
  }

  // ---------- category after category ----------

  /** No category of `a` is one of `b`. */
  ghost predicate ApartCategories(a: seq<Entry>, b: seq<Entry>) {
    forall i, j :: 0 <= i < |a| && 0 <= j < |b| ==> a[i].path != [] && b[j].path != [] && a[i].path[0] != b[j].path[0]
  }

  lemma InsideSharesFirst(q: Path, path: Path)
    requires Inside(q, path)
    ensures path[0] == q[0]
  {
    assert path[..|q|][0] == q[0];
  }

  lemma FirstsApart(a: seq<Entry>, b: seq<Entry>, i: nat, j: nat)
    requires ApartCategories(a, b) && i < |a| && j < |b|
    ensures a[i].path != [] && b[j].path != [] && a[i].path[0] != b[j].path[0]
  {
  }

  lemma GroupedAppend(a: seq<Entry>, b: seq<Entry>)
    requires Grouped(a) && Grouped(b) && ApartCategories(a, b)
    ensures Grouped(a + b)
  {
    var all := a + b;
    forall q, i, j, k | 0 <= i <= j <= k < |all| && Inside(q, all[i].path) && Inside(q, all[k].path)
      ensures Inside(q, all[j].path)
    {
      InsideSharesFirst(q, all[i].path);
      InsideSharesFirst(q, all[k].path);
      if k < |a| {
        assert Inside(q, a[i].path) && Inside(q, a[k].path) && Inside(q, a[j].path);
      } else if i >= |a| {
        assert Inside(q, b[i - |a|].path) && Inside(q, b[k - |a|].path) && Inside(q, b[j - |a|].path);
      }
    }
  }

  lemma DistinctAppend(a: seq<Entry>, b: seq<Entry>)
    requires DistinctPaths(a) && DistinctPaths(b) && ApartCategories(a, b)
    ensures DistinctPaths(a + b)
  {
    var all := a + b;
    forall i, j | 0 <= i < j < |all| ensures all[i].path != all[j].path {
      if i < |a| && j >= |a| { FirstsApart(a, b, i, j - |a|); }
    }
  }

  lemma CoversAppend(registry: Registry, a: seq<Entry>, b: seq<Entry>, cats: seq<string>, cat: string)
    requires Covers(registry, a, cats) && Covers(registry, b, [cat])
    ensures Covers(registry, a + b, cats + [cat])
  {
    var all := a + b;
    forall i | 0 <= i < |all| ensures FromKey(registry, all[i], cats + [cat]) {
      if i < |a| { assert FromKey(registry, a[i], cats); } else { assert FromKey(registry, b[i - |a|], [cat]); }
    }
    forall k | k in registry && registry[k].category in cats + [cat] ensures PathOfSome(Split(k), all) {
      if registry[k].category in cats {
        var i :| 0 <= i < |a| && a[i].path == Split(k);
        assert all[i].path == Split(k);
      } else {
        var i :| 0 <= i < |b| && b[i].path == Split(k);
        assert all[|a| + i].path == Split(k);
      }
    }
  }

  lemma CoveredApart(registry: Registry, a: seq<Entry>, b: seq<Entry>, cats: seq<string>, cat: string)
    requires Covers(registry, a, cats) && Covers(registry, b, [cat]) && cat !in cats
    ensures ApartCategories(a, b)
  {
    forall i, j | 0 <= i < |a| && 0 <= j < |b|
      ensures a[i].path != [] && b[j].path != [] && a[i].path[0] != b[j].path[0]
    {
      assert FromKey(registry, a[i], cats) && FromKey(registry, b[j], [cat]);
    }
  }

  /** The whole document is what its settings print, category after category. */
  lemma {:induction false} DocumentIsLines(registry: Registry, order: seq<string>)
    requires WellKeyed(registry) && EachOnce(order)
    ensures var entries := AllEntries(registry, order);
            && Document(registry, order) == Lines([], entries)
            && Covers(registry, entries, order) && Grouped(entries) && DistinctPaths(entries)
  {
    if order == [] {
    } else {
      hide *;
      var n := |order| - 1;
      var init, cat := order[..n], order[n];
      assert init + [cat] == order;
      OrderPrefix(init, cat);
      DocumentIsLines(registry, init);
      CategoryFacts(registry, cat);
      AllEntriesSnoc(registry, order);
      var a, b := AllEntries(registry, init), CategoryEntries(registry, cat);
      CoveredApart(registry, a, b, init, cat);
      GroupedAppend(a, b);
      DistinctAppend(a, b);
      CoversAppend(registry, a, b, init, cat);
      LinesAppend([], a, b);
      CategoryAppended(registry, cat, a, b, init);
    }
  }

  lemma OrderPrefix(init: seq<string>, cat: string)
    requires EachOnce(init + [cat])
    ensures EachOnce(init) && cat !in init
  {
    var all := init + [cat];
    assert all[|init|] == cat && forall i :: 0 <= i < |init| ==> all[i] == init[i];
  }

  lemma AllEntriesSnoc(registry: Registry, order: seq<string>)
    requires order != []
    ensures var n := |order| - 1;
            && AllEntries(registry, order) == AllEntries(registry, order[..n]) + CategoryEntries(registry, order[n])
            && Document(registry, order) == Document(registry, order[..n]) + CategoryLines(registry, order[n])
  {
  }

  lemma CategoryAppended(registry: Registry, cat: string, a: seq<Entry>, b: seq<Entry>, cats: seq<string>)
    requires b == CategoryEntries(registry, cat) && (b == [] <==> CategoryKeys(registry, cat) == [])
    requires AllPrintable(a) && Covers(registry, a, cats) && Covers(registry, b, [cat]) && cat !in cats
    ensures CategoryLines(registry, cat) == Lines(OpenAfter([], a), b)
  {
    hide Lines, CategoryKeys, CategoryEntries;
    var open := OpenAfter([], a);
    if a != [] { assert FromKey(registry, a[|a| - 1], cats); }
    if b != [] {
      assert FromKey(registry, b[0], [cat]);
      HeaderIsOpening(open, cat, b);
    } else {
      assert Lines(open, []) == [] by { NoLines(open); }
    }
  }

  lemma NoLines(open: Path)
    ensures Lines(open, []) == []
  {
  }

  // ---------- the round trip ----------

  lemma NonePrefixNoneInside(registry: Registry, entries: seq<Entry>, order: seq<string>)
    requires Covers(registry, entries, order) && forall k :: k in registry ==> registry[k].category in order
    ensures NoneInside(entries) <==> NoDottedPrefix(registry)
  {
    hide Split;
    if NoneInside(entries) {
      forall a, b | a in registry && b in registry ensures !(a + [DOT] <= b) {
        var i :| 0 <= i < |entries| && entries[i].path == Split(a);
        var j :| 0 <= j < |entries| && entries[j].path == Split(b);
        assert !Inside(entries[i].path, entries[j].path);
        JoinSplit(a);
        InsideIsPrefix(Split(a), b);
      }
    }
    if NoDottedPrefix(registry) {
      forall i, j | 0 <= i < |entries| && 0 <= j < |entries| ensures !Inside(entries[i].path, entries[j].path) {
        assert FromKey(registry, entries[i], order) && FromKey(registry, entries[j], order);
        var a :| a in registry && Split(a) == entries[i].path && registry[a].value == entries[i].value;
        var b :| b in registry && Split(b) == entries[j].path && registry[b].value == entries[j].value;
        JoinSplit(a);
        InsideIsPrefix(Split(a), b);
        assert !(a + [DOT] <= b);
      }
    }
  }

  /** What reading gives back: for every key its value at its path, and nothing else; and as sections
      exactly the beginnings of those paths. */
  ghost predicate GivesBack(t: Tree, registry: Registry) {
    && (forall k :: k in registry ==> Split(k) in t.leaves && t.leaves[Split(k)] == registry[k].value)
    && (forall p :: p in t.leaves ==> exists k :: k in registry && Split(k) == p)
    && (forall p :: p in t.sections <==> exists k :: k in registry && Inside(p, Split(k)))
  }

  lemma KeyOfEntry(registry: Registry, e: Entry, order: seq<string>) returns (k: string)
    requires FromKey(registry, e, order)
    ensures k in registry && Split(k) == e.path && registry[k].value == e.value
  {
    k :| k in registry && Split(k) == e.path && registry[k].value == e.value;
  }

  lemma EntryOfPath(entries: seq<Entry>, p: Path) returns (i: nat)
    requires PathOfSome(p, entries)
    ensures i < |entries| && entries[i].path == p
  {
    i :| 0 <= i < |entries| && entries[i].path == p;
  }

  lemma GivesBackValue(registry: Registry, entries: seq<Entry>, order: seq<string>, t: Tree, k: string)
    requires AllPrintable(entries) && Holding(t, entries) && Covers(registry, entries, order)
    requires k in registry && registry[k].category in order
    ensures Split(k) in t.leaves && t.leaves[Split(k)] == registry[k].value
  {
    hide Split, Inside, PathOfSome, SectionsHeld, FromKey, OpenAfter;
    var i := EntryOfPath(entries, Split(k));
    var m := KeyOfEntry(registry, entries[i], order);
    SplitInjective(k, m);
  }

  lemma GivesBackSections(registry: Registry, entries: seq<Entry>, order: seq<string>, t: Tree, p: Path)
    requires AllPrintable(entries) && Holding(t, entries)
    requires Covers(registry, entries, order) && forall k :: k in registry ==> registry[k].category in order
    ensures p in t.sections <==> exists k :: k in registry && Inside(p, Split(k))
  {
    hide Split, Inside, PathOfSome, FromKey, OpenAfter;
    if p in t.sections {
      var i :| 0 <= i < |entries| && Inside(p, entries[i].path);
      var k := KeyOfEntry(registry, entries[i], order);
    }
    if k :| k in registry && Inside(p, Split(k)) {
      var i := EntryOfPath(entries, Split(k));
      assert InSome(p, entries);
    }
  }

  lemma HoldingGivesBack(registry: Registry, entries: seq<Entry>, order: seq<string>, t: Tree)
    requires AllPrintable(entries) && Holding(t, entries)
    requires Covers(registry, entries, order) && forall k :: k in registry ==> registry[k].category in order
    ensures GivesBack(t, registry)
  {
    hide Split, Inside, FromKey, SectionsHeld, OpenAfter;
    forall k | k in registry ensures Split(k) in t.leaves && t.leaves[Split(k)] == registry[k].value {
      GivesBackValue(registry, entries, order, t, k);
    }
    forall p | p in t.leaves ensures exists k :: k in registry && Split(k) == p {
      var i := EntryOfPath(entries, p);
      var k := KeyOfEntry(registry, entries[i], order);
    }
    forall p ensures p in t.sections <==> exists k :: k in registry && Inside(p, Split(k)) {
      GivesBackSections(registry, entries, order, t, p);
    }
  }

  /** The printed configuration reads back as the registry, every section opened once, exactly when no
      key is a dotted beginning of another. */
  lemma PrintedConfigReadsBack(registry: Registry, order: seq<string>)
    requires WellKeyed(registry) && EachOnce(order) && forall k :: k in registry ==> registry[k].category in order
    ensures var lines := Document(registry, order);
            var r := Read(EMPTY_TREE, lines);
            && (r.Some? <==> NoDottedPrefix(registry))
            && (r.Some? ==> GivesBack(r.value, registry) && SectionCount(lines) == |r.value.sections|)
  {
    hide *;
    var entries := AllEntries(registry, order);
    DocumentIsLines(registry, order);
    LinesReadBack(entries);
    NonePrefixNoneInside(registry, entries, order);
    OpenedOnce(Lines([], entries));
    var r := Read(EMPTY_TREE, Lines([], entries));
    if r.Some? { HoldingGivesBack(registry, entries, order, r.value); }
  }
}
