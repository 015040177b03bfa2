/** Dotted keys: splitting them at their dots, their order, and why keys with a common section are neighbours. */
module DottedKeys {

  const DOT: char := '.'

  type Path = seq<string>

  predicate NoDot(s: string) {
    DOT !in s
  }

  /** The parts between the dots; there is one more part than there are dots. */
  function Split(s: string): (parts: Path)
    ensures parts != [] && forall i :: 0 <= i < |parts| ==> NoDot(parts[i])
  {
    if s == "" then [""]
    else
      var rest := Split(s[1..]);
      if s[0] == DOT then [""] + rest else [[s[0]] + rest[0]] + rest[1..]
  }

  function Join(parts: Path): string
    requires parts != []
  {
    if |parts| == 1 then parts[0] else parts[0] + [DOT] + Join(parts[1..])
  }

  lemma {:induction false} SplitOne(part: string, rest: string)
    requires NoDot(part)
    ensures Split(part + [DOT] + rest) == [part] + Split(rest)
    ensures Split(part) == [part]
  {
    if part == "" {
      assert part + [DOT] + rest == [DOT] + rest && ([DOT] + rest)[1..] == rest;
    } else {
      SplitOne(part[1..], rest);
      assert (part + [DOT] + rest)[1..] == part[1..] + [DOT] + rest;
      assert [part[0]] + part[1..] == part;
    }
  }

  /** Parts joined in front of more text come off again. */
  lemma {:induction false} SplitJoined(parts: Path, rest: string)
    requires parts != [] && forall i :: 0 <= i < |parts| ==> NoDot(parts[i])
    ensures Split(Join(parts) + [DOT] + rest) == parts + Split(rest)
  {
    hide Split, NoDot;
    if |parts| == 1 {
      SplitOne(parts[0], rest);
      assert parts == [parts[0]];
    } else {
      var tail := parts[1..];
      SplitJoined(tail, rest);
      SplitOne(parts[0], Join(tail) + [DOT] + rest);
      JoinedText(parts, rest);
      assert [parts[0]] + (tail + Split(rest)) == parts + Split(rest);
    }
  }

  lemma JoinedText(parts: Path, rest: string)
    requires |parts| > 1
    ensures Join(parts) + [DOT] + rest == parts[0] + [DOT] + (Join(parts[1..]) + [DOT] + rest)
  {
  }

  lemma {:induction false} JoinSplit(s: string)
    ensures Join(Split(s)) == s
  {
    if s != "" {
      JoinSplit(s[1..]);
      var rest := Split(s[1..]);
      assert s == [s[0]] + s[1..];
      if s[0] != DOT && |rest| > 1 {
        assert ([[s[0]] + rest[0]] + rest[1..])[1..] == rest[1..];
      }
    }
  }

  lemma {:induction false} JoinAppend(a: Path, b: Path)
    requires a != [] && b != []
    ensures Join(a + b) == Join(a) + [DOT] + Join(b)
  {
    if |a| > 1 {
      assert (a + b)[1..] == a[1..] + b;
      JoinAppend(a[1..], b);
    } else {
      assert (a + b)[1..] == b;
    }
  }

  /** `q` is a section the key is in: a proper, non-empty beginning of its path. */
  predicate Inside(q: Path, path: Path) {
    0 < |q| < |path| && path[..|q|] == q
  }

  /** A key lies in a section exactly when it begins with the section's name and a dot. */
  lemma InsideIsPrefix(q: Path, key: string)
    requires q != [] && forall i :: 0 <= i < |q| ==> NoDot(q[i])
    ensures Inside(q, Split(key)) <==> Join(q) + [DOT] <= key
  {
    var path := Split(key);
    if Inside(q, path) {
      JoinSplit(key);
      assert path == q + path[|q|..];
      JoinAppend(q, path[|q|..]);
    }
    var start := Join(q) + [DOT];
    if start <= key {
      var rest := key[|start|..];
      assert key == Join(q) + [DOT] + rest;
      SplitJoined(q, rest);
    }
  }

  lemma SplitInjective(a: string, b: string)
    requires Split(a) == Split(b)
    ensures a == b
  {
    JoinSplit(a);
    JoinSplit(b);
  }

  // ---------- order ----------

  /** Character by character; a beginning comes before what continues it. */
  predicate AtMost(a: string, b: string) {
    a == "" || (b != "" && (a[0] < b[0] || (a[0] == b[0] && AtMost(a[1..], b[1..]))))
  }

  lemma {:induction false} AtMostTotal(a: string, b: string)
    ensures AtMost(a, b) || AtMost(b, a)
    ensures AtMost(a, b) && AtMost(b, a) ==> a == b
  {
    if a != "" && b != "" && a[0] == b[0] {
      AtMostTotal(a[1..], b[1..]);
      assert a == [a[0]] + a[1..] && b == [b[0]] + b[1..];
    }
  }

  lemma {:induction false} AtMostTransitive(a: string, b: string, c: string)
    requires AtMost(a, b) && AtMost(b, c)
    ensures AtMost(a, c)
  {
    if a != "" && a[0] == b[0] && b[0] == c[0] { AtMostTransitive(a[1..], b[1..], c[1..]); }
  }

  /** Whatever stands between two strings with a common beginning has that beginning too. */
  lemma {:induction false} PrefixBetween(p: string, a: string, b: string, c: string)
    requires p <= a && p <= c && AtMost(a, b) && AtMost(b, c)
    ensures p <= b
  {
    if p != "" {
      assert a[0] == p[0] == c[0] && b != "" && b[0] == p[0];
      PrefixBetween(p[1..], a[1..], b[1..], c[1..]);
      assert p == [p[0]] + p[1..] && b == [b[0]] + b[1..];
    }
  }

  predicate IsFirst(s: set<string>, x: string) {
    x in s && forall y :: y in s ==> AtMost(x, y)
  }

  lemma {:induction false} FirstExists(s: set<string>)
    requires s != {}
    ensures exists x :: IsFirst(s, x)
  {
    var x :| x in s;
    AtMostTotal(x, x);
    if s == {x} {
      assert IsFirst(s, x);
    } else {
      FirstExists(s - {x});
      var y :| IsFirst(s - {x}, y);
      AtMostTotal(x, y);
      var z := if AtMost(x, y) then x else y;
      forall w | w in s ensures AtMost(z, w) {
        AtMostTotal(w, w);
        if w != x && z == x { AtMostTransitive(x, y, w); }
      }
      assert IsFirst(s, z);
    }
  }

  lemma FirstUnique(s: set<string>, x: string, y: string)
    requires IsFirst(s, x) && IsFirst(s, y)
    ensures x == y
  {
    AtMostTotal(x, y);
  }

  function First(s: set<string>): (x: string)
    requires s != {}
    ensures IsFirst(s, x)
  {
    FirstExists(s);
    assert forall x, y :: IsFirst(s, x) && IsFirst(s, y) ==> x == y by {
      forall x, y | IsFirst(s, x) && IsFirst(s, y) ensures x == y { FirstUnique(s, x, y); }
    }
    var x :| x in s && IsFirst(s, x);
    x
  }

  ghost predicate Sorted(keys: seq<string>) {
    forall i, j :: 0 <= i < j < |keys| ==> AtMost(keys[i], keys[j]) && keys[i] != keys[j]
  }

  /** All elements of a set, in order. */
  function Sort(s: set<string>): (keys: seq<string>)
    ensures Sorted(keys) && forall k :: k in keys <==> k in s
    decreases |s|
  {
    if s == {} then []
    else
      var x := First(s);
      var rest := Sort(s - {x});
      assert forall i :: 0 <= i < |rest| ==> rest[i] in rest;
      [x] + rest
  }

  /** In sorted keys, those inside one section are neighbours. */
  lemma SectionsAreTogether(keys: seq<string>, q: Path, i: nat, j: nat, k: nat)
    requires Sorted(keys) && i <= j <= k < |keys|
    requires Inside(q, Split(keys[i])) && Inside(q, Split(keys[k]))
    ensures Inside(q, Split(keys[j]))
  {
    assert forall m :: 0 <= m < |q| ==> q[m] == Split(keys[i])[m];
    InsideIsPrefix(q, keys[i]);
    InsideIsPrefix(q, keys[j]);
    InsideIsPrefix(q, keys[k]);
    AtMostTotal(keys[j], keys[j]);
    PrefixBetween(Join(q) + [DOT], keys[i], keys[j], keys[k]);
  }
}
