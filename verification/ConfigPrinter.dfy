/** The printer of the commented configuration file: nested sections opened as the sorted keys need them.

    A line is its indentation depth and what stands on it; comments and blank lines are not part of
    the model. */
module ConfigPrinter {
  import opened DottedKeys

  datatype Line = Section(depth: nat, name: string) | Leaf(depth: nat, name: string, value: string)

  datatype Setting = Setting(category: string, value: string)

  type Registry = map<string, Setting>

  /** One setting to print: its path, category first, and its value. */
  datatype Entry = Entry(path: Path, value: string) {
    predicate Printable() {
      |path| >= 2
    }

    /** The sections the setting is in. */
    function Sections(): Path
      requires Printable()
    {
      path[..|path| - 1]
    }
  }

  // ---------- one setting ----------

  function CommonLen(a: Path, b: Path): (n: nat)
    ensures n <= |a| && n <= |b| && a[..n] == b[..n]
    ensures n < |a| && n < |b| ==> a[n] != b[n]
  {
    if a == [] || b == [] || a[0] != b[0] then 0
    else
      var n := CommonLen(a[1..], b[1..]);
      assert a[..n + 1] == [a[0]] + a[1..][..n] && b[..n + 1] == [b[0]] + b[1..][..n];
      n + 1
  }

  /** The headers of the sections from depth `from` on. */
  function Headers(sections: Path, from: nat): seq<Line>
    requires from <= |sections|
    decreases |sections| - from
  {
    if from == |sections| then [] else [Section(from, sections[from])] + Headers(sections, from + 1)
  }

  /** The headers not open yet, then the setting itself. */
  function EntryLines(open: Path, e: Entry): seq<Line>
    requires e.Printable()
  {
    Headers(e.Sections(), CommonLen(open, e.Sections()))
    + [Leaf(|e.path| - 1, e.path[|e.path| - 1], e.value)]
  }

  ghost predicate AllPrintable(entries: seq<Entry>) {
    forall i :: 0 <= i < |entries| ==> entries[i].Printable()
  }

  /** The sections open after some settings. */
  function OpenAfter(open: Path, entries: seq<Entry>): Path
    requires AllPrintable(entries)
  {
    if entries == [] then open else entries[|entries| - 1].Sections()
  }

  function Lines(open: Path, entries: seq<Entry>): seq<Line>
    requires AllPrintable(entries)
  {
    if entries == [] then []
    else
      var n := |entries| - 1;
      Lines(open, entries[..n]) + EntryLines(OpenAfter(open, entries[..n]), entries[n])
  }

  // ---------- a category ----------

  /** What follows the first dot of a key, split at its dots; nothing if there is no dot. */
  function FieldPath(key: string): Path {
    Split(key)[1..]
  }

  function EntriesOf(registry: Registry, cat: string, keys: seq<string>): (entries: seq<Entry>)
    requires forall k :: k in keys ==> k in registry
    ensures AllPrintable(entries)
  {
    if keys == [] then []
    else
      var n := |keys| - 1;
      assert keys[n] in keys;
      var before := EntriesOf(registry, cat, keys[..n]);
      if FieldPath(keys[n]) == [] then before
      else before + [Entry([cat] + FieldPath(keys[n]), registry[keys[n]].value)]
  }

  function CategoryKeys(registry: Registry, cat: string): (keys: seq<string>)
    ensures Sorted(keys)
    ensures forall k :: k in keys <==> k in registry && registry[k].category == cat
  {
    Sort(set k | k in registry && registry[k].category == cat)
  }

  function CategoryEntries(registry: Registry, cat: string): (entries: seq<Entry>)
    ensures AllPrintable(entries)
  {
    EntriesOf(registry, cat, CategoryKeys(registry, cat))
  }

  /** A category header and the settings below it; a category without keys prints nothing. */
  function CategoryLines(registry: Registry, cat: string): seq<Line> {
    if CategoryKeys(registry, cat) == [] then []
    else [Section(0, cat)] + Lines([cat], CategoryEntries(registry, cat))
  }

  function Document(registry: Registry, order: seq<string>): seq<Line> {
    if order == [] then []
    else Document(registry, order[..|order| - 1]) + CategoryLines(registry, order[|order| - 1])
  }

  // ---------- the printing loops ----------

  lemma {:induction false} CommonIsUnique(a: Path, b: Path, n: nat)
    requires n <= |a| && n <= |b| && a[..n] == b[..n] && (n < |a| && n < |b| ==> a[n] != b[n])
    ensures CommonLen(a, b) == n
  {
    if n > 0 {
      assert a[0] == a[..n][0] == b[..n][0] == b[0];
      assert a[1..][..n - 1] == a[..n][1..] && b[1..][..n - 1] == b[..n][1..];
      CommonIsUnique(a[1..], b[1..], n - 1);
    }
  }

  lemma OneHeader(before: seq<Line>, sections: Path, from: nat)
    requires from < |sections|
    ensures before + Headers(sections, from) == before + [Section(from, sections[from])] + Headers(sections, from + 1)
  {
    hide Headers;
    HeadersStep(sections, from);
  }

  lemma HeadersStep(sections: Path, from: nat)
    requires from < |sections|
    ensures Headers(sections, from) == [Section(from, sections[from])] + Headers(sections, from + 1)
  {
  }

  lemma NoMoreHeaders(before: seq<Line>, sections: Path)
    ensures before + Headers(sections, |sections|) == before
  {
  }

  lemma LinesOfEntry(lines: seq<Line>, open: Path, e: Entry)
    requires e.Printable()
    ensures var sections := e.Sections();
            && |e.path| == |sections| + 1
            && lines + EntryLines(open, e)
               == lines + Headers(sections, CommonLen(open, sections))
                  + [Leaf(|sections|, e.path[|sections|], e.value)]
  {
    hide Headers, CommonLen;
  }

  /** Prints one setting: compares its sections with the open ones, opens the rest, writes the leaf. */
  method PrintEntry(lines: seq<Line>, open: Path, e: Entry) returns (after: seq<Line>)
    requires e.Printable()
    ensures after == lines + EntryLines(open, e)
  {
    LinesOfEntry(lines, open, e);
    hide *;
    after := lines;
    var sections := e.Sections();
    var common := 0;
    while common < |open| && common < |sections| && open[common] == sections[common]
      invariant common <= |open| && common <= |sections| && open[..common] == sections[..common]
    {
      common := common + 1;
    }
    CommonIsUnique(open, sections, common);
    for j := common to |sections|
      invariant after + Headers(sections, j) == lines + Headers(sections, common)
    {
      OneHeader(after, sections, j);
      after := after + [Section(j, sections[j])];
    }
    NoMoreHeaders(after, sections);
    after := after + [Leaf(|sections|, e.path[|sections|], e.value)];
  }

  method PrintCategory(registry: Registry, cat: string) returns (lines: seq<Line>)
    ensures lines == CategoryLines(registry, cat)
  {
    lines := [];
    var keys := CategoryKeys(registry, cat);
    if keys == [] { return; }
    hide *;
    lines := [Section(0, cat)];
    var open: Path := [cat];
    NothingPrinted(registry, cat);
    for i := 0 to |keys|
      invariant lines == [Section(0, cat)] + Lines([cat], EntriesOf(registry, cat, keys[..i]))
      invariant open == OpenAfter([cat], EntriesOf(registry, cat, keys[..i]))
    {
      EntriesSnoc(registry, cat, keys, i);
      var field := FieldPath(keys[i]);
      ghost var before := EntriesOf(registry, cat, keys[..i]);
      if field == [] {
        assert before + [] == before;
        continue;
      }
      var e := Entry([cat] + field, registry[keys[i]].value);
      FieldIsPrintable(cat, field, e.value);
      LinesSnoc([cat], before, e);
      Associates([Section(0, cat)], Lines([cat], before), EntryLines(open, e));
      lines := PrintEntry(lines, open, e);
      open := e.Sections();
    }
    assert keys[..|keys|] == keys;
  }

  method Generate(registry: Registry, order: seq<string>) returns (lines: seq<Line>)
    ensures lines == Document(registry, order)
  {
    hide CategoryLines;
    lines := [];
    for i := 0 to |order|
      invariant lines == Document(registry, order[..i])
    {
      assert order[..i + 1][..i] == order[..i];
      var section := PrintCategory(registry, order[i]);
      lines := lines + section;
    }
    assert order[..|order|] == order;
  }

  lemma FieldIsPrintable(cat: string, field: Path, value: string)
    requires field != []
    ensures Entry([cat] + field, value).Printable()
  {
  }

  lemma NothingPrinted(registry: Registry, cat: string)
    ensures EntriesOf(registry, cat, []) == [] && Lines([cat], []) == [] && OpenAfter([cat], []) == [cat]
  {
  }

  lemma EntriesSnoc(registry: Registry, cat: string, keys: seq<string>, i: nat)
    requires i < |keys| && forall k :: k in keys ==> k in registry
    ensures keys[i] in registry
    ensures EntriesOf(registry, cat, keys[..i + 1])
            == EntriesOf(registry, cat, keys[..i])
               + if FieldPath(keys[i]) == [] then [] else [Entry([cat] + FieldPath(keys[i]), registry[keys[i]].value)]
  {
    hide FieldPath;
    assert keys[i] in keys && keys[..i + 1][..i] == keys[..i];
  }

  lemma LinesSnoc(open: Path, entries: seq<Entry>, e: Entry)
    requires AllPrintable(entries) && e.Printable()
    ensures AllPrintable(entries + [e])
    ensures Lines(open, entries + [e]) == Lines(open, entries) + EntryLines(OpenAfter(open, entries), e)
    ensures OpenAfter(open, entries + [e]) == e.Sections()
  {
    assert (entries + [e])[..|entries|] == entries;
  }

  // ---------- categories one after the other ----------

  lemma PrintableParts(entries: seq<Entry>, n: nat)
    requires AllPrintable(entries) && n < |entries|
    ensures AllPrintable(entries[..n]) && entries[n].Printable()
  {
  }

  lemma Associates<T>(a: seq<T>, b: seq<T>, c: seq<T>)
    ensures a + b + c == a + (b + c)
  {
  }

  lemma {:induction false} LinesAppend(open: Path, a: seq<Entry>, b: seq<Entry>)
    requires AllPrintable(a) && AllPrintable(b)
    ensures AllPrintable(a + b)
    ensures Lines(open, a + b) == Lines(open, a) + Lines(OpenAfter(open, a), b)
    ensures OpenAfter(open, a + b) == OpenAfter(OpenAfter(open, a), b)
    decreases |b|
  {
    if b == [] {
      assert a + b == a;
    } else {
      hide *;
      var n := |b| - 1;
      var init, e := b[..n], b[n];
      assert init + [e] == b && (a + init) + [e] == a + b;
      assert AllPrintable(init) && e.Printable() by { PrintableParts(b, n); }
      LinesAppend(open, a, init);
      LinesSnoc(open, a + init, e);
      LinesSnoc(OpenAfter(open, a), init, e);
      Associates(Lines(open, a), Lines(OpenAfter(open, a), init), EntryLines(OpenAfter(OpenAfter(open, a), init), e));
    }
  }

  lemma OneLine(open: Path, e: Entry)
    requires e.Printable()
    ensures Lines(open, [e]) == EntryLines(open, e) && OpenAfter(open, [e]) == e.Sections()
  {
    hide EntryLines;
    assert [e][..0] == [] && Lines(open, []) == [];
  }

  /** A category's header and settings are what its settings alone print, when another category was open. */
  lemma HeaderIsOpening(open: Path, cat: string, entries: seq<Entry>)
    requires entries != [] && AllPrintable(entries) && (open == [] || open[0] != cat)
    requires entries[0].path[0] == cat
    ensures [Section(0, cat)] + Lines([cat], entries) == Lines(open, entries)
  {
    hide EntryLines, Lines;
    var e, rest := entries[0], entries[1..];
    assert [e] + rest == entries;
    OneLine(open, e);
    OneLine([cat], e);
    LinesAppend(open, [e], rest);
    LinesAppend([cat], [e], rest);
    FirstOpening(open, cat, e);
    assert [Section(0, cat)] + (EntryLines([cat], e) + Lines(e.Sections(), rest))
           == [Section(0, cat)] + EntryLines([cat], e) + Lines(e.Sections(), rest);
  }

  lemma FirstOpening(open: Path, cat: string, e: Entry)
    requires e.Printable() && e.path[0] == cat && (open == [] || open[0] != cat)
    ensures EntryLines(open, e) == [Section(0, cat)] + EntryLines([cat], e)
  {
    var sections := e.Sections();
    assert sections[0] == cat;
    assert CommonLen(open, sections) == 0;
    assert CommonLen([cat], sections) == 1;
    assert Headers(sections, 0) == [Section(0, cat)] + Headers(sections, 1);
  }
}
