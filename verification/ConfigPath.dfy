/**
 * Configuration documents as property trees: what fields exist at one level, the conversion of a subtree
 * into a field list, and path resolution over the live tree, with documents attached by name.
 */
module ConfigPath {
  import opened Wrappers
  import opened Binder

  datatype Ptree = Ptree(data: string, children: seq<Child>)

  datatype Child = Child(key: string, tree: Ptree)

  const XML_ATTRIBUTES := "<xmlattr>"
  const TEXT_KEY := "#text"

  // ---------------------------------------------------------------- one level

  /** The shape a JSON array has: children, all of them with empty keys. */
  predicate IsArray(t: Ptree) {
    t.children != [] && forall i | 0 <= i < |t.children| :: t.children[i].key == ""
  }

  function Renamed(children: seq<Child>, key: string): (r: seq<Child>)
    ensures |r| == |children|
    ensures forall i | 0 <= i < |r| :: r[i] == Child(key, children[i].tree)
  {
    seq(|children|, i requires 0 <= i < |children| => Child(key, children[i].tree))
  }

  /** What one child stands for: its attributes, one entry per array element, or itself. */
  function Expanded(c: Child): seq<Child> {
    if c.key == XML_ATTRIBUTES then c.tree.children
    else if IsArray(c.tree) then Renamed(c.tree.children, c.key)
    else [c]
  }

  function VisibleUpTo(children: seq<Child>, n: nat): seq<Child>
    requires n <= |children|
  {
    if n == 0 then [] else VisibleUpTo(children, n - 1) + Expanded(children[n - 1])
  }

  lemma VisibleStep(children: seq<Child>, i: nat)
    requires i < |children|
    ensures VisibleUpTo(children, i + 1) == VisibleUpTo(children, i) + Expanded(children[i])
  {}

  /** The fields that exist at this level. */
  function Visible(t: Ptree): seq<Child> {
    VisibleUpTo(t.children, |t.children|)
  }

  /** The first entry that matches, case-insensitively. */
  function FirstTree(entries: seq<Child>, name: string): Option<Ptree> {
    if entries == [] then None
    else
      var earlier, last := FirstTree(entries[..|entries| - 1], name), entries[|entries| - 1];
      if earlier.Some? then earlier else if IEquals(last.key, name) then Some(last.tree) else None
  }

  lemma FirstTreeAppend(entries: seq<Child>, c: Child, name: string)
    ensures FirstTree(entries + [c], name) ==
      if FirstTree(entries, name).Some? then FirstTree(entries, name) else if IEquals(c.key, name) then Some(c.tree) else None
  {
    assert (entries + [c])[..|entries|] == entries;
  }

  function FindChild(t: Ptree, name: string): Option<Ptree> {
    FirstTree(Visible(t), name)
  }

  /** The visitor with its captured result. */
  method FindPtreeChild(t: Ptree, name: string) returns (found: Option<Ptree>)
    ensures found == FindChild(t, name)
  {
    hide IEquals;
    found := None;
    assert FirstTree(VisibleUpTo(t.children, 0), name) == None;
    hide FirstTree;
    hide VisibleUpTo;
    for i := 0 to |t.children|
      invariant found == FirstTree(VisibleUpTo(t.children, i), name)
    {
      var c := t.children[i];
      ghost var before := VisibleUpTo(t.children, i);
      VisibleStep(t.children, i);
      if c.key == XML_ATTRIBUTES {
        found := VisitAll(before, c.tree.children, name, found);
      } else if IsArray(c.tree) {
        found := VisitAll(before, Renamed(c.tree.children, c.key), name, found);
      } else {
        FirstTreeAppend(before, c, name);
        if found.None? && IEquals(c.key, name) { found := Some(c.tree); }
      }
    }
  }

  /** The inner loops of the visitor. */
  method VisitAll(ghost before: seq<Child>, entries: seq<Child>, name: string, start: Option<Ptree>) returns (found: Option<Ptree>)
    requires start == FirstTree(before, name)
    ensures found == FirstTree(before + entries, name)
  {
    found := start;
    assert before + entries[..0] == before;
    for k := 0 to |entries|
      invariant found == FirstTree(before + entries[..k], name)
    {
      FirstTreeAppend(before + entries[..k], entries[k], name);
      assert before + entries[..k + 1] == (before + entries[..k]) + [entries[k]];
      if found.None? && IEquals(entries[k].key, name) { found := Some(entries[k].tree); }
    }
    assert entries[..|entries|] == entries;
  }

  // ---------------------------------------------------------------- what a level shows

  lemma {:induction false} VisibleOfPrefix(a: seq<Child>, b: seq<Child>, n: nat)
    requires n <= |a|
    ensures VisibleUpTo(a + b, n) == VisibleUpTo(a, n)
  {
    hide Expanded;
    if n > 0 { VisibleOfPrefix(a, b, n - 1); }
  }

  lemma VisibleNone(children: seq<Child>)
    ensures VisibleUpTo(children, 0) == []
  {}

  lemma Regroup<T>(a: seq<T>, b: seq<T>, c: seq<T>)
    ensures (a + b) + c == a + (b + c)
  {}

  lemma {:induction false} VisibleOfSuffix(a: seq<Child>, b: seq<Child>, n: nat)
    requires n <= |b|
    ensures VisibleUpTo(a + b, |a| + n) == VisibleUpTo(a, |a|) + VisibleUpTo(b, n)
    decreases n
  {
    VisibleNone(b);
    hide *;
    if n == 0 {
      VisibleOfPrefix(a, b, |a|);
    } else {
      VisibleOfSuffix(a, b, n - 1);
      var both, m := a + b, |a| + (n - 1);
      assert both[m] == b[n - 1];
      VisibleStep(both, m);
      VisibleStep(b, n - 1);
      Regroup(VisibleUpTo(a, |a|), VisibleUpTo(b, n - 1), Expanded(b[n - 1]));
    }
  }

  /** Children show one after the other, in document order. */
  lemma VisibleInOrder(text: string, a: seq<Child>, b: seq<Child>)
    ensures Visible(Ptree(text, [])) == []
    ensures Visible(Ptree(text, a + b)) == Visible(Ptree(text, a)) + Visible(Ptree(text, b))
  {
    VisibleOfSuffix(a, b, |b|);
  }

  /**
   * What one child shows as: attributes by their own names, a JSON array as its elements, each under the
   * array's key, anything else as itself. With VisibleInOrder this determines every level.
   */
  lemma ChildShows(text: string, c: Child)
    ensures c.key == "<xmlattr>" ==> Visible(Ptree(text, [c])) == c.tree.children
    ensures c.key != "<xmlattr>" && c.tree.children != [] && (forall i | 0 <= i < |c.tree.children| :: c.tree.children[i].key == "") ==>
      |Visible(Ptree(text, [c]))| == |c.tree.children|
      && forall i | 0 <= i < |c.tree.children| :: Visible(Ptree(text, [c]))[i] == Child(c.key, c.tree.children[i].tree)
    ensures c.key != "<xmlattr>" && (c.tree.children == [] || exists i :: 0 <= i < |c.tree.children| && c.tree.children[i].key != "") ==>
      Visible(Ptree(text, [c])) == [c]
  {
    VisibleStep([c], 0);
    assert VisibleUpTo([c], 0) == [];
  }

  ghost predicate NoneNamed(entries: seq<Child>, name: string) {
    forall i | 0 <= i < |entries| :: !IEquals(entries[i].key, name)
  }

  /** The first entry named like it is found, whatever follows; with none there is nothing to find. */
  lemma {:induction false} FirstTreeIs(entries: seq<Child>, k: nat, name: string)
    requires k <= |entries| && NoneNamed(entries[..k], name)
    ensures k == |entries| ==> FirstTree(entries, name) == None
    ensures k < |entries| && IEquals(entries[k].key, name) ==> FirstTree(entries, name) == Some(entries[k].tree)
    decreases |entries|
  {
    hide IEquals;
    if entries != [] {
      var n := |entries| - 1;
      if k <= n {
        assert entries[..n][..k] == entries[..k];
        FirstTreeIs(entries[..n], k, name);
      } else {
        assert entries[..k][n] == entries[n];
        assert entries[..n] == entries[..k][..n];
        FirstTreeIs(entries[..n], n, name);
      }
    }
  }

  /** A child is found under its name when nothing before it shows that name. */
  lemma FoundInOrder(text: string, before: seq<Child>, c: Child, after: seq<Child>, k: nat, name: string)
    requires NoneNamed(Visible(Ptree(text, before)), name)
    requires k < |Visible(Ptree(text, [c]))| && NoneNamed(Visible(Ptree(text, [c]))[..k], name)
    requires IEquals(Visible(Ptree(text, [c]))[k].key, name)
    ensures FindChild(Ptree(text, before + [c] + after), name) == Some(Visible(Ptree(text, [c]))[k].tree)
  {
    hide IEquals;
    VisibleInOrder(text, before + [c], after);
    VisibleInOrder(text, before, [c]);
    hide Visible;
    FirstInMiddle(Visible(Ptree(text, before)), Visible(Ptree(text, [c])), Visible(Ptree(text, after)), k, name);
  }

  lemma FirstInMiddle(front: seq<Child>, shown: seq<Child>, rest: seq<Child>, k: nat, name: string)
    requires NoneNamed(front, name) && k < |shown| && NoneNamed(shown[..k], name) && IEquals(shown[k].key, name)
    ensures FirstTree(front + shown + rest, name) == Some(shown[k].tree)
  {
    hide IEquals;
    hide FirstTree;
    var entries, p := front + shown + rest, |front| + k;
    assert entries[p] == shown[k];
    forall i | 0 <= i < p ensures !IEquals(entries[..p][i].key, name) {
      if i >= |front| { assert entries[i] == shown[..k][i - |front|]; } else { assert entries[i] == front[i]; }
    }
    FirstTreeIs(entries, p, name);
  }

  /** The first attribute of a name is found, unless something earlier shows that name. */
  lemma AttributeIsFound(text: string, before: seq<Child>, attributes: Ptree, after: seq<Child>, k: nat, name: string)
    requires NoneNamed(Visible(Ptree(text, before)), name)
    requires k < |attributes.children| && NoneNamed(attributes.children[..k], name) && IEquals(attributes.children[k].key, name)
    ensures FindChild(Ptree(text, before + [Child("<xmlattr>", attributes)] + after), name) == Some(attributes.children[k].tree)
  {
    ChildShows(text, Child("<xmlattr>", attributes));
    FoundInOrder(text, before, Child("<xmlattr>", attributes), after, k, name);
  }

  /** Under an array's key its first element is found, and the elements are listed in order under that key. */
  lemma ArrayElementIsFound(text: string, before: seq<Child>, key: string, elements: Ptree, after: seq<Child>, name: string)
    requires NoneNamed(Visible(Ptree(text, before)), name) && IEquals(key, name) && key != "<xmlattr>"
    requires elements.children != [] && forall i | 0 <= i < |elements.children| :: elements.children[i].key == ""
    ensures FindChild(Ptree(text, before + [Child(key, elements)] + after), name) == Some(elements.children[0].tree)
  {
    ChildShows(text, Child(key, elements));
    FoundInOrder(text, before, Child(key, elements), after, 0, name);
  }

  // ---------------------------------------------------------------- conversion

  function Height(t: Ptree): nat
    decreases t, 0
  {
    1 + MaxHeight(t.children, |t.children|)
  }

  function MaxHeight(children: seq<Child>, n: nat): nat
    requires n <= |children|
    decreases children, n
  {
    if n == 0 then 0
    else
      var rest, last := MaxHeight(children, n - 1), Height(children[n - 1].tree);
      if last > rest then last else rest
  }

  lemma {:induction false} ChildIsLower(children: seq<Child>, n: nat, i: nat)
    requires i < n <= |children|
    ensures Height(children[i].tree) <= MaxHeight(children, n)
    decreases n
  {
    if i < n - 1 { ChildIsLower(children, n - 1, i); }
  }

  lemma {:induction false} VisibleIsLower(t: Ptree, n: nat, i: nat)
    requires n <= |t.children| && i < |VisibleUpTo(t.children, n)|
    ensures Height(VisibleUpTo(t.children, n)[i].tree) < Height(t)
    decreases n
  {
    if n > 0 {
      var before, c := VisibleUpTo(t.children, n - 1), t.children[n - 1];
      if i < |before| {
        VisibleIsLower(t, n - 1, i);
      } else {
        ChildIsLower(t.children, |t.children|, n - 1);
        if c.key == XML_ATTRIBUTES || IsArray(c.tree) { ChildIsLower(c.tree.children, |c.tree.children|, i - |before|); }
      }
    }
  }

  predicate IsSpace(c: char) {
    c in [' ', '\t', '\r', '\n', 12 as char, 11 as char]
  }

  function Trim(s: string): string {
    if s == "" then ""
    else if IsSpace(s[0]) then Trim(s[1..])
    else if IsSpace(s[|s| - 1]) then Trim(s[..|s| - 1])
    else s
  }

  /** Trimming takes white space off both ends and nothing else, and leaves none there. */
  lemma {:induction false} TrimIs(s: string) returns (a: string, b: string)
    ensures s == a + Trim(s) + b
    ensures (forall i | 0 <= i < |a| :: IsSpace(a[i])) && (forall i | 0 <= i < |b| :: IsSpace(b[i]))
    ensures Trim(s) != "" ==> !IsSpace(Trim(s)[0]) && !IsSpace(Trim(s)[|Trim(s)| - 1])
    decreases |s|
  {
    a, b := "", "";
    if s == "" {
      assert Trim(s) == "";
    } else if IsSpace(s[0]) {
      a, b := TrimIs(s[1..]);
      assert Trim(s) == Trim(s[1..]);
      hide *;
      a := WithFirst(s, a, Trim(s), b);
    } else if IsSpace(s[|s| - 1]) {
      a, b := TrimIs(s[..|s| - 1]);
      assert Trim(s) == Trim(s[..|s| - 1]);
      hide *;
      b := WithLast(s, a, Trim(s), b);
    } else {
      assert Trim(s) == s && s == "" + s + "";
    }
  }

  /** White space around a text that neither begins nor ends with any is taken off, whatever there is of it. */
  lemma {:induction false} TrimUndoesPadding(a: string, t: string, b: string)
    requires (forall i | 0 <= i < |a| :: IsSpace(a[i])) && (forall i | 0 <= i < |b| :: IsSpace(b[i]))
    requires t != "" && !IsSpace(t[0]) && !IsSpace(t[|t| - 1])
    ensures Trim(a + t + b) == t
    decreases |a| + |b|
  {
    hide IsSpace;
    var s := a + t + b;
    if a != "" {
      assert s[0] == a[0] && s[1..] == a[1..] + t + b;
      TrimUndoesPadding(a[1..], t, b);
    } else if b != "" {
      assert s[0] == t[0] && s[|s| - 1] == b[|b| - 1] && s[..|s| - 1] == a + t + b[..|b| - 1];
      TrimUndoesPadding(a, t, b[..|b| - 1]);
    } else {
      assert s == t;
    }
  }

  lemma WithFirst(s: string, a: string, t: string, b: string) returns (a': string)
    requires s != "" && s[1..] == a + t + b && IsSpace(s[0]) && forall i | 0 <= i < |a| :: IsSpace(a[i])
    ensures s == a' + t + b && forall i | 0 <= i < |a'| :: IsSpace(a'[i])
  {
    hide IsSpace;
    a' := [s[0]] + a;
    assert s == [s[0]] + s[1..];
  }

  lemma WithLast(s: string, a: string, t: string, b: string) returns (b': string)
    requires s != "" && s[..|s| - 1] == a + t + b && IsSpace(s[|s| - 1]) && forall i | 0 <= i < |b| :: IsSpace(b[i])
    ensures s == a + t + b' && forall i | 0 <= i < |b'| :: IsSpace(b'[i])
  {
    hide IsSpace;
    b' := b + [s[|s| - 1]];
    assert s == s[..|s| - 1] + [s[|s| - 1]];
    assert a + t + (b + [s[|s| - 1]]) == (a + t + b) + [s[|s| - 1]];
  }

  /** The first n visible entries as fields. */
  function FieldsUpTo(t: Ptree, n: nat): (fields: seq<Field>)
    requires n <= |Visible(t)|
    ensures |fields| == n
    decreases Height(t), 0, n
  {
    if n == 0 then []
    else
      VisibleIsLower(t, |t.children|, n - 1);
      FieldsUpTo(t, n - 1) + [Field(Visible(t)[n - 1].key, NestedValue(Visible(t)[n - 1].tree))]
  }

  function FromPtree(t: Ptree): seq<Field>
    decreases Height(t), 1, 0
  {
    FieldsUpTo(t, |Visible(t)|)
  }

  function OwnText(t: Ptree): seq<Field> {
    if Trim(t.data) == "" then [] else [Field(TEXT_KEY, LeafV(Text(Trim(t.data))))]
  }

  /** The value a field list holds for a node: its text, or its fields and then its own text. */
  function NestedValue(t: Ptree): Value
    decreases Height(t), 2, 0
  {
    if t.children == [] then LeafV(Text(Trim(t.data))) else StructV(FromPtree(t) + OwnText(t))
  }

  /** The value a resolved node converts to on its own. */
  function ToValue(t: Ptree): Value {
    if t.children == [] then LeafV(Text(Trim(t.data))) else StructV(FromPtree(t))
  }

  // ---------------------------------------------------------------- resolution

  /** A document and those attached to it by name. */
  datatype Document = Document(root: Ptree, attached: seq<Child>)

  function DotIn(path: string, i: nat): (d: nat)
    requires i <= |path|
    ensures i <= d <= |path| && (d < |path| ==> path[d] == '.') && forall k | i <= k < d :: path[k] != '.'
    decreases |path| - i
  {
    if i == |path| || path[i] == '.' then i else DotIn(path, i + 1)
  }

  function Segment(path: string): string {
    path[..DotIn(path, 0)]
  }

  function Rest(path: string): (r: string)
    ensures path != "" ==> |r| < |path|
  {
    var d := DotIn(path, 0);
    if d == |path| then "" else path[d + 1..]
  }

  /** One step; only the document's own root falls back to the attached documents. */
  function Child1(doc: Document, t: Ptree, atRoot: bool, name: string): Option<Ptree> {
    var own := FindChild(t, name);
    if own.Some? || !atRoot then own else FirstTree(doc.attached, name)
  }

  function Resolved(doc: Document, t: Ptree, atRoot: bool, path: string): Option<Ptree>
    decreases |path|
  {
    if path == "" then Some(t)
    else
      match Child1(doc, t, atRoot, Segment(path))
      case None => None
      case Some(next) => Resolved(doc, next, false, Rest(path))
  }

  method Resolve(doc: Document, base: Ptree, baseIsRoot: bool, path: string) returns (node: Option<Ptree>)
    requires baseIsRoot ==> base == doc.root
    ensures node == Resolved(doc, base, baseIsRoot, path)
  {
    var current, atRoot, left := base, baseIsRoot, path;
    while left != ""
      invariant Resolved(doc, current, atRoot, left) == Resolved(doc, base, baseIsRoot, path)
      decreases |left|
    {
      var segment := Segment(left);
      var next := FindPtreeChild(current, segment);
      if next.None? && atRoot {
        var k := 0;
        assert doc.attached[..0] == [];
        while k < |doc.attached| && next.None?
          invariant k <= |doc.attached| && next == FirstTree(doc.attached[..k], segment)
        {
          FirstTreeAppend(doc.attached[..k], doc.attached[k], segment);
          assert doc.attached[..k + 1] == doc.attached[..k] + [doc.attached[k]];
          if IEquals(doc.attached[k].key, segment) { next := Some(doc.attached[k].tree); }
          k := k + 1;
        }
        FirstTreePrefix(doc.attached, k, segment);
      }
      if next.None? { return None; }
      current, atRoot, left := next.value, false, Rest(left);
    }
    node := Some(current);
  }

  /** A match found in a prefix stays the first match; no match in all of it is no match. */
  lemma {:induction false} FirstTreePrefix(entries: seq<Child>, k: nat, name: string)
    requires k <= |entries| && (FirstTree(entries[..k], name).Some? || k == |entries|)
    ensures FirstTree(entries, name) == FirstTree(entries[..k], name)
    decreases |entries| - k
  {
    if k < |entries| {
      assert entries[..k + 1] == entries[..k] + [entries[k]];
      FirstTreeAppend(entries[..k], entries[k], name);
      FirstTreePrefix(entries, k + 1, name);
    } else {
      assert entries[..k] == entries;
    }
  }

  // ---------------------------------------------------------------- composition

  function Then(doc: Document, node: Option<Ptree>, path: string): Option<Ptree> {
    match node
    case None => None
    case Some(t) => Resolved(doc, t, false, path)
  }

  lemma SegmentOfJoin(p: string, q: string)
    requires p != ""
    ensures Segment(p + "." + q) == Segment(p)
    ensures Rest(p + "." + q) == if DotIn(p, 0) == |p| then q else Rest(p) + "." + q
  {
    hide *;
    var pq, d := p + "." + q, DotIn(p, 0);
    JoinPieces(p, q, d);
    DotAt(p, pq, d);
    SegmentAt(p, d);
    SegmentAt(pq, d);
  }

  lemma SegmentAt(path: string, d: nat)
    requires d == DotIn(path, 0)
    ensures Segment(path) == path[..d] && Rest(path) == if d == |path| then "" else path[d + 1..]
  {}

  lemma DotAt(p: string, pq: string, d: nat)
    requires d == DotIn(p, 0) && |p| < |pq| && pq[..|p|] == p && pq[|p|] == '.'
    ensures DotIn(pq, 0) == d
  {
    hide DotIn;
    assert forall k | 0 <= k < |p| :: pq[k] == p[k];
    DotUnique(pq, d);
  }

  lemma JoinPieces(p: string, q: string, d: nat)
    requires d <= |p|
    ensures var pq := p + "." + q; |pq| == |p| + 1 + |q| && pq[..|p|] == p && pq[|p|] == '.'
    ensures var pq := p + "." + q; pq[..d] == p[..d] && pq[d + 1..] == if d == |p| then q else p[d + 1..] + "." + q
  {
    var pq := p + "." + q;
    if d == |p| {
      assert pq[d + 1..] == q;
    } else {
      assert pq[d + 1..] == p[d + 1..] + "." + q;
    }
  }

  lemma DotUnique(path: string, d: nat)
    requires d < |path| && path[d] == '.' && forall k | 0 <= k < d :: path[k] != '.'
    ensures DotIn(path, 0) == d
  {}

  /** Resolving p.q is resolving p and then q, unless p ends in a dot. */
  lemma {:induction false} ResolveComposes(doc: Document, t: Ptree, atRoot: bool, p: string, q: string)
    requires p != "" && p[|p| - 1] != '.'
    ensures Resolved(doc, t, atRoot, p + "." + q) == Then(doc, Resolved(doc, t, atRoot, p), q)
    decreases |p|
  {
    SegmentOfJoin(p, q);
    var d := DotIn(p, 0);
    match Child1(doc, t, atRoot, Segment(p))
    case None =>
    case Some(next) =>
      if d < |p| {
        ResolveComposes(doc, next, false, Rest(p), q);
      }
  }

  /** A trailing dot is ignored on its own, so a path ending in one does not compose. */
  lemma TrailingDotIgnored(doc: Document, t: Ptree, atRoot: bool, p: string)
    requires p != "" && p[|p| - 1] != '.'
    ensures Resolved(doc, t, atRoot, p + ".") == Resolved(doc, t, atRoot, p)
  {
    assert p + "." + "" == p + ".";
    ResolveComposes(doc, t, atRoot, p, "");
  }

  /** An attached document is only ever a fallback for a first segment the primary does not have. */
  lemma AttachmentNeverShadows(doc: Document, path: string)
    requires path != "" && FindChild(doc.root, Segment(path)).Some?
    ensures Resolved(doc, doc.root, true, path) == Resolved(Document(doc.root, []), doc.root, true, path)
  {
    AttachmentsUnseenBelow(doc, FindChild(doc.root, Segment(path)).value, Rest(path));
  }

  /**
   * Of the attached documents the first one of the name is taken, for a first segment the primary does not
   * have; the rest of the path is followed below it, where attachments play no part any more.
   */
  lemma AttachmentIsFound(doc: Document, path: string, k: nat)
    requires path != "" && FindChild(doc.root, Segment(path)).None?
    requires k <= |doc.attached| && NoneNamed(doc.attached[..k], Segment(path))
    ensures k == |doc.attached| ==> Resolved(doc, doc.root, true, path) == None
    ensures k < |doc.attached| && IEquals(doc.attached[k].key, Segment(path)) ==>
      Resolved(doc, doc.root, true, path) == Resolved(Document(doc.root, []), doc.attached[k].tree, false, Rest(path))
  {
    FirstTreeIs(doc.attached, k, Segment(path));
    if k < |doc.attached| && IEquals(doc.attached[k].key, Segment(path)) {
      AttachmentsUnseenBelow(doc, doc.attached[k].tree, Rest(path));
    }
  }

  lemma {:induction false} AttachmentsUnseenBelow(doc: Document, t: Ptree, path: string)
    ensures Resolved(doc, t, false, path) == Resolved(Document(doc.root, []), t, false, path)
    decreases |path|
  {
    if path != "" {
      var next := FindChild(t, Segment(path));
      if next.Some? { AttachmentsUnseenBelow(doc, next.value, Rest(path)); }
    }
  }

  // ---------------------------------------------------------------- resolution commutes with conversion

  function FirstValue(fields: seq<Field>, name: string): Option<Value> {
    if fields == [] then None
    else
      var earlier, last := FirstValue(fields[..|fields| - 1], name), fields[|fields| - 1];
      if earlier.Some? then earlier else if IEquals(last.name, name) then Some(last.value) else None
  }

  /** Following first case-insensitive matches through a converted value. */
  function Followed(v: Value, path: string): Option<Value>
    decreases |path|
  {
    if path == "" then Some(v)
    else if v.LeafV? then None
    else
      match FirstValue(v.fields, Segment(path))
      case None => None
      case Some(next) => Followed(next, Rest(path))
  }

  /** No segment of the path is the reserved name for an element's own text. */
  predicate AvoidsText(path: string)
    decreases |path|
  {
    path == "" || (!IEquals(TEXT_KEY, Segment(path)) && AvoidsText(Rest(path)))
  }

  function MapNested(node: Option<Ptree>): Option<Value> {
    match node case None => None case Some(t) => Some(NestedValue(t))
  }

  lemma {:induction false} SameFirst(t: Ptree, n: nat, name: string)
    requires n <= |Visible(t)|
    ensures FirstValue(FieldsUpTo(t, n), name) == MapNested(FirstTree(Visible(t)[..n], name))
    decreases n
  {
    hide NestedValue;
    hide IEquals;
    hide Visible;
    if n > 0 {
      var before, v := FieldsUpTo(t, n - 1), Visible(t)[n - 1];
      SameFirst(t, n - 1, name);
      assert Visible(t)[..n] == Visible(t)[..n - 1] + [v];
      FirstTreeAppend(Visible(t)[..n - 1], v, name);
      FirstValueAppend(before, Field(v.key, NestedValue(v.tree)), name);
    }
  }

  /**
   * The field list is the level's visible entries, one by one: a childless entry as its trimmed text, any
   * other as a nested list.
   */
  lemma {:induction false} FieldsAreVisible(t: Ptree, n: nat, i: nat)
    requires i < n <= |Visible(t)|
    ensures FieldsUpTo(t, n)[i].name == Visible(t)[i].key
    ensures var tree, value := Visible(t)[i].tree, FieldsUpTo(t, n)[i].value;
      if tree.children == [] then value == LeafV(Text(Trim(tree.data)))
      else
        var own := if Trim(tree.data) == "" then [] else [Field("#text", LeafV(Text(Trim(tree.data))))];
        value == StructV(FieldsUpTo(tree, |Visible(tree)|) + own)
    decreases n
  {
    hide Visible;
    hide Trim;
    if i < n - 1 { FieldsAreVisible(t, n - 1, i); } else { NestedIs(Visible(t)[i].tree); }
  }

  lemma NestedIs(t: Ptree)
    ensures NestedValue(t) == if t.children == [] then LeafV(Text(Trim(t.data))) else StructV(FieldsUpTo(t, |Visible(t)|) + OwnText(t))
  {}

  lemma FirstValueAppend(fields: seq<Field>, f: Field, name: string)
    ensures FirstValue(fields + [f], name) ==
      if FirstValue(fields, name).Some? then FirstValue(fields, name) else if IEquals(f.name, name) then Some(f.value) else None
  {
    assert (fields + [f])[..|fields|] == fields;
  }

  /** One level: the field list holds, under every name but the text key, what the live tree has there. */
  lemma LevelAgrees(t: Ptree, name: string)
    ensures FirstValue(FromPtree(t), name) == MapNested(FindChild(t, name))
    ensures !IEquals(TEXT_KEY, name) ==> FirstValue(FromPtree(t) + OwnText(t), name) == MapNested(FindChild(t, name))
  {
    SameFirst(t, |Visible(t)|, name);
    assert Visible(t)[..|Visible(t)|] == Visible(t);
    if OwnText(t) == [] {
      assert FromPtree(t) + OwnText(t) == FromPtree(t);
    } else {
      FirstValueAppend(FromPtree(t), OwnText(t)[0], name);
    }
  }

  lemma LeafHasNoChild(t: Ptree, name: string)
    requires t.children == []
    ensures FindChild(t, name) == None
  {}

  lemma {:induction false} NestedCommutes(doc: Document, t: Ptree, path: string)
    requires AvoidsText(path)
    ensures Followed(NestedValue(t), path) == MapNested(Resolved(doc, t, false, path))
    decreases |path|
  {
    if path != "" {
      LevelAgrees(t, Segment(path));
      if t.children == [] { LeafHasNoChild(t, Segment(path)); }
      var next := FindChild(t, Segment(path));
      if next.Some? { NestedCommutes(doc, next.value, Rest(path)); }
    }
  }

  /**
   * Resolving a path and converting what it reaches gives the same as converting the whole tree and
   * following the path through the field list, up to the reached node's own text entry.
   */
  lemma ResolveCommutesWithConversion(root: Ptree, path: string)
    requires path != "" && AvoidsText(path)
    ensures var node := Resolved(Document(root, []), root, true, path);
      && Followed(ToValue(root), path) == MapNested(node)
      && (node.Some? ==>
            NestedValue(node.value) ==
              if node.value.children == [] then ToValue(node.value) else StructV(ToValue(node.value).fields + OwnText(node.value)))
  {
    var doc := Document(root, []);
    LevelAgrees(root, Segment(path));
    if root.children == [] { LeafHasNoChild(root, Segment(path)); }
    var next := FindChild(root, Segment(path));
    if next.Some? { NestedCommutes(doc, next.value, Rest(path)); }
  }

  /** The text key is where the two differ: the field list has the element's own text, the tree has no such child. */
  lemma TextSegmentOnlyInFieldList(text: string, size: string)
    requires Trim(text) != ""
    ensures var host := Ptree(text, [Child("port", Ptree(size, []))]);
      && Followed(NestedValue(host), TEXT_KEY) == Some(LeafV(Text(Trim(text))))
      && Resolved(Document(host, []), host, true, TEXT_KEY) == None
  {
    var port := Child("port", Ptree(size, []));
    var host := Ptree(text, [port]);
    OnlyChildVisible(text, port);
    NameMismatch(port, TEXT_KEY);
    LevelAgrees(host, TEXT_KEY);
    WholeSegment(TEXT_KEY);
    TextFollowed(host);
  }

  lemma OnlyChildVisible(text: string, c: Child)
    requires c.key != XML_ATTRIBUTES && !IsArray(c.tree)
    ensures Visible(Ptree(text, [c])) == [c]
  {
    VisibleStep([c], 0);
  }

  lemma NameMismatch(c: Child, name: string)
    requires |c.key| != |name|
    ensures FirstTree([c], name) == None
  {
    FirstTreeAppend([], c, name);
    assert [] + [c] == [c];
  }

  lemma WholeSegment(name: string)
    requires name != "" && forall k | 0 <= k < |name| :: name[k] != '.'
    ensures Segment(name) == name && Rest(name) == ""
  {}

  lemma TextFollowed(host: Ptree)
    requires host.children != [] && Trim(host.data) != "" && FindChild(host, TEXT_KEY) == None
    ensures Followed(NestedValue(host), TEXT_KEY) == Some(LeafV(Text(Trim(host.data))))
  {
    hide Trim;
    LevelAgrees(host, TEXT_KEY);
    WholeSegment(TEXT_KEY);
    FirstValueAppend(FromPtree(host), OwnText(host)[0], TEXT_KEY);
  }
}