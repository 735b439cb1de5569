/**
 * Binding a parser-independent field list onto a struct described by an explicit schema: two lookup
 * strategies chosen by the struct's field count, the recursive binder above them, its strict mode, and the
 * overload that moves leaf values out of the source while it reads.
 */
module Binder {
  import opened Wrappers

  /** Scalar alternatives of a parsed value: raw text, or a scalar the parser already typed. */
  datatype Leaf = Text(s: string) | Typed(n: int)

  datatype Value = LeafV(leaf: Leaf) | StructV(fields: seq<Field>)

  datatype Field = Field(name: string, value: Value)

  // ---------------------------------------------------------------- names

  function Lower(c: char): char {
    if 'A' <= c <= 'Z' then c - 'A' + 'a' else c
  }

  predicate IEquals(a: string, b: string) {
    |a| == |b| && forall i | 0 <= i < |a| :: Lower(a[i]) == Lower(b[i])
  }

  /** The lower-case and the capital form of one letter. */
  predicate CasePair(small: char, capital: char) {
    'A' <= capital <= 'Z' && small as int == capital as int + 32
  }

  /** Two names match exactly when they agree character by character but for the case of ASCII letters. */
  lemma NamesMatchIff(a: string, b: string)
    ensures IEquals(a, b) <==>
      |a| == |b| && forall i | 0 <= i < |a| :: a[i] == b[i] || CasePair(a[i], b[i]) || CasePair(b[i], a[i])
  {
    forall x: char, y: char ensures Lower(x) == Lower(y) <==> x == y || CasePair(x, y) || CasePair(y, x) { SameLower(x, y); }
  }

  lemma SameLower(x: char, y: char)
    ensures Lower(x) == Lower(y) <==> x == y || CasePair(x, y) || CasePair(y, x)
  {}

  /** One FNV-1a round. */
  function Mix(h: bv64, c: char): bv64 {
    (h ^ ((c as int % 256) as bv64)) * 1099511628211
  }

  /** The case-folding hash of the first n characters. */
  function HashUpTo(s: string, n: nat): bv64
    requires n <= |s|
  {
    if n == 0 then 14695981039346656037 else Mix(HashUpTo(s, n - 1), Lower(s[n - 1]))
  }

  function Bucket(s: string, buckets: nat): (b: nat)
    requires buckets > 0
    ensures b < buckets
  {
    (HashUpTo(s, |s|) as nat) % buckets
  }

  /** Equal keys hash equal: what the hash container relies on. */
  lemma {:induction false} EqualNamesHashEqual(a: string, b: string, n: nat)
    requires IEquals(a, b) && n <= |a|
    ensures HashUpTo(a, n) == HashUpTo(b, n)
  {
    hide Mix;
    if n > 0 { EqualNamesHashEqual(a, b, n - 1); }
  }

  // ---------------------------------------------------------------- lookup

  /** Positions among the first n fields whose name matches, in order. */
  function Scan(fields: seq<Field>, n: nat, name: string): (ps: seq<nat>)
    requires n <= |fields|
    ensures forall i | 0 <= i < |ps| :: ps[i] < n && IEquals(fields[ps[i]].name, name)
  {
    if n == 0 then []
    else Scan(fields, n - 1, name) + if IEquals(fields[n - 1].name, name) then [n - 1] else []
  }

  /** Nothing that matches is missed. */
  lemma {:induction false} ScanFindsAll(fields: seq<Field>, n: nat, name: string, p: nat)
    requires p < n <= |fields| && IEquals(fields[p].name, name)
    ensures p in Scan(fields, n, name)
  {
    if p < n - 1 { ScanFindsAll(fields, n - 1, name, p); }
  }

  lemma {:induction false} ScanFindsNone(fields: seq<Field>, n: nat, name: string)
    requires n <= |fields| && forall p | 0 <= p < n :: !IEquals(fields[p].name, name)
    ensures Scan(fields, n, name) == []
  {
    if n > 0 { ScanFindsNone(fields, n - 1, name); }
  }

  lemma ScanStep(fields: seq<Field>, i: nat, name: string)
    requires i < |fields|
    ensures Scan(fields, i + 1, name) == Scan(fields, i, name) + if IEquals(fields[i].name, name) then [i] else []
  {}

  datatype Entry = Entry(key: string, positions: seq<nat>)

  /** The entry of a bucket whose key equals the name up to case, from entry i on. */
  function FindEntry(bucket: seq<Entry>, name: string, i: nat): (j: nat)
    requires i <= |bucket|
    ensures i <= j <= |bucket|
    ensures j < |bucket| ==> IEquals(bucket[j].key, name)
    ensures forall k | i <= k < j :: !IEquals(bucket[k].key, name)
    decreases |bucket| - i
  {
    if i == |bucket| || IEquals(bucket[i].key, name) then i else FindEntry(bucket, name, i + 1)
  }

  function Probe(table: seq<seq<Entry>>, name: string): seq<nat>
    requires |table| > 0
  {
    ProbeEntry(table[Bucket(name, |table|)], name)
  }

  /** `by_name_[name].push_back(p)`. */
  function Insert(table: seq<seq<Entry>>, name: string, p: nat): (t: seq<seq<Entry>>)
    requires |table| > 0
    ensures |t| == |table|
  {
    var b := Bucket(name, |table|);
    table[b := InsertEntry(table[b], name, p)]
  }

  /** The index built over the first n fields. */
  function Table(fields: seq<Field>, n: nat, buckets: nat): (t: seq<seq<Entry>>)
    requires n <= |fields| && buckets > 0
    ensures |t| == buckets
  {
    if n == 0 then seq(buckets, i => []) else Insert(Table(fields, n - 1, buckets), fields[n - 1].name, n - 1)
  }

  lemma IEqualsTransitive(a: string, b: string, c: string)
    requires IEquals(a, b) && IEquals(b, c)
    ensures IEquals(a, c) && IEquals(c, a)
  {}

  /** FindEntry is the first match, and only that. */
  lemma FirstMatch(bucket: seq<Entry>, name: string, j: nat)
    requires j <= |bucket| && (j < |bucket| ==> IEquals(bucket[j].key, name))
    requires forall k | 0 <= k < j :: !IEquals(bucket[k].key, name)
    ensures FindEntry(bucket, name, 0) == j
  {}

  lemma SameEntry(bucket: seq<Entry>, key: string, name: string)
    requires IEquals(key, name)
    ensures FindEntry(bucket, key, 0) == FindEntry(bucket, name, 0)
  {
    var j, m := FindEntry(bucket, key, 0), FindEntry(bucket, name, 0);
    if j < m {
      IEqualsTransitive(bucket[j].key, key, name);
    } else if m < j {
      IEqualsTransitive(bucket[m].key, name, key);
    }
  }

  function InsertEntry(bucket: seq<Entry>, name: string, p: nat): seq<Entry> {
    var j := FindEntry(bucket, name, 0);
    if j < |bucket| then bucket[j := Entry(bucket[j].key, bucket[j].positions + [p])] else bucket + [Entry(name, [p])]
  }

  function ProbeEntry(bucket: seq<Entry>, name: string): seq<nat> {
    var j := FindEntry(bucket, name, 0);
    if j < |bucket| then bucket[j].positions else []
  }

  lemma EntryAfterInsert(bucket: seq<Entry>, key: string, p: nat, name: string)
    requires IEquals(key, name)
    ensures ProbeEntry(InsertEntry(bucket, key, p), name) == ProbeEntry(bucket, name) + [p]
  {
    var j, bucket' := FindEntry(bucket, key, 0), InsertEntry(bucket, key, p);
    SameEntry(bucket, key, name);
    assert forall k | 0 <= k < j :: bucket'[k] == bucket[k];
    hide IEquals;
    FirstMatch(bucket', name, j);
  }

  lemma OtherEntryAfterInsert(bucket: seq<Entry>, key: string, p: nat, name: string)
    requires !IEquals(key, name)
    ensures ProbeEntry(InsertEntry(bucket, key, p), name) == ProbeEntry(bucket, name)
  {
    var j, m, bucket' := FindEntry(bucket, key, 0), FindEntry(bucket, name, 0), InsertEntry(bucket, key, p);
    if j == m < |bucket| { IEqualsTransitive(key, bucket[j].key, name); }
    assert forall k | 0 <= k < |bucket| :: bucket'[k].key == bucket[k].key;
    hide IEquals;
    FirstMatch(bucket', name, if m < |bucket| then m else |bucket'|);
  }

  /** An insertion is seen by every spelling of the inserted name and by no other name. */
  lemma ProbeAfterInsert(table: seq<seq<Entry>>, key: string, p: nat, name: string)
    requires |table| > 0
    ensures Probe(Insert(table, key, p), name) == Probe(table, name) + if IEquals(key, name) then [p] else []
  {
    hide Bucket;
    hide IEquals;
    var bucket := table[Bucket(key, |table|)];
    if IEquals(key, name) {
      SameBucket(key, name, |table|);
      EntryAfterInsert(bucket, key, p, name);
    } else {
      OtherEntryAfterInsert(bucket, key, p, name);
    }
  }

  lemma SameBucket(a: string, b: string, buckets: nat)
    requires IEquals(a, b) && buckets > 0
    ensures Bucket(a, buckets) == Bucket(b, buckets)
  {
    EqualNamesHashEqual(a, b, |a|);
  }

  lemma ProbeEmpty(buckets: nat, name: string)
    requires buckets > 0
    ensures Probe(seq(buckets, i => []), name) == []
  {}

  /** The hashed index and the linear scan give the same matches in the same order, for every name. */
  lemma {:induction false} HashedIsLinear(fields: seq<Field>, n: nat, buckets: nat, name: string)
    requires n <= |fields| && buckets > 0
    ensures Probe(Table(fields, n, buckets), name) == Scan(fields, n, name)
  {
    hide Probe;
    hide Insert;
    if n == 0 {
      ProbeEmpty(buckets, name);
    } else {
      HashedIsLinear(fields, n - 1, buckets, name);
      ProbeAfterInsert(Table(fields, n - 1, buckets), fields[n - 1].name, n - 1, name);
    }
  }

  /** None: no match; Err: an ambiguous name. */
  function Single(ps: seq<nat>): Result<Option<nat>, nat> {
    if |ps| == 0 then Ok(None) else if |ps| == 1 then Ok(Some(ps[0])) else Err(|ps|)
  }

  /** The small-struct strategy: scan for every lookup. */
  class LinearFieldScanner {
    const fields: seq<Field>

    constructor (fields: seq<Field>)
      ensures this.fields == fields
    {
      this.fields := fields;
    }

    method All(name: string) returns (matches: seq<nat>)
      ensures matches == Scan(fields, |fields|, name)
    {
      matches := [];
      for i := 0 to |fields|
        invariant matches == Scan(fields, i, name)
      {
        if IEquals(fields[i].name, name) { matches := matches + [i]; }
      }
    }

    method SingleMatch(name: string) returns (duplicate: bool, found: Option<nat>)
      ensures duplicate <==> Single(Scan(fields, |fields|, name)).Err?
      ensures !duplicate ==> Single(Scan(fields, |fields|, name)) == Ok(found)
    {
      duplicate, found := false, None;
      assert Scan(fields, 0, name) == [];
      hide IEquals;
      hide Scan;
      for i := 0 to |fields|
        invariant !duplicate && Single(Scan(fields, i, name)) == Ok(found)
      {
        ScanStep(fields, i, name);
        if IEquals(fields[i].name, name) {
          if found.Some? {
            duplicate := true;
            MatchesOnlyGrow(fields, i + 1, |fields|, name);
            return;
          }
          found := Some(i);
        }
      }
    }
  }

  lemma {:induction false} MatchesOnlyGrow(fields: seq<Field>, n: nat, m: nat, name: string)
    requires n <= m <= |fields|
    ensures |Scan(fields, n, name)| <= |Scan(fields, m, name)|
    decreases m
  {
    if n < m { MatchesOnlyGrow(fields, n, m - 1, name); }
  }

  /** The large-struct strategy: one hash table per level. */
  class FieldIndex {
    ghost const fields: seq<Field>
    var table: seq<seq<Entry>>

    ghost predicate Valid()
      reads this
    {
      |table| > 0 && table == Table(fields, |fields|, |table|)
    }

    constructor (fields: seq<Field>, buckets: nat)
      requires buckets > 0
      ensures Valid() && this.fields == fields
    {
      this.fields := fields;
      var t := seq(buckets, i => []);
      for i := 0 to |fields|
        invariant t == Table(fields, i, buckets)
      {
        t := Insert(t, fields[i].name, i);
      }
      table := t;
    }

    method All(name: string) returns (matches: seq<nat>)
      requires Valid()
      ensures matches == Scan(fields, |fields|, name)
    {
      HashedIsLinear(fields, |fields|, |table|, name);
      matches := Probe(table, name);
    }

    method SingleMatch(name: string) returns (duplicate: bool, found: Option<nat>)
      requires Valid()
      ensures duplicate <==> Single(Scan(fields, |fields|, name)).Err?
      ensures !duplicate ==> Single(Scan(fields, |fields|, name)) == Ok(found)
    {
      HashedIsLinear(fields, |fields|, |table|, name);
      var ps := Probe(table, name);
      duplicate := |ps| > 1;
      found := if |ps| == 1 then Some(ps[0]) else None;
    }
  }

  // ---------------------------------------------------------------- schema

  datatype Type = LeafT(kind: nat) | StructT(id: nat) | VectorT(elem: Type) | OptionalT(inner: Type)

  datatype Member = Member(name: string, ty: Type)

  /** What a bound struct, vector, optional or leaf holds. */
  datatype Out = LeafO(v: string) | StructO(members: seq<Out>) | VectorO(elems: seq<Out>) | OptionalO(o: Option<Out>)

  /** A struct's fields and its value-initialized content, default member initializers included. */
  datatype StructDef = StructDef(members: seq<Member>, blank: Out)

  /**
   * The schema environment; structs refer to each other, and to themselves, by number. `convert` is the
   * parsing of one leaf into one leaf type, None when it rejects the text.
   */
  datatype Schema = Schema(structs: seq<StructDef>, convert: (nat, Leaf) -> Option<string>)

  datatype Error = Missing(name: string) | Ambiguous(name: string) | NotALeaf(name: string) | NotAStruct(name: string)
    | BadLeaf(name: string) | Unknown(name: string)

  /** The elements of a vector are leaves or structs. */
  predicate TypeOk(c: Schema, ty: Type) {
    match ty
    case LeafT(_) => true
    case StructT(i) => i < |c.structs|
    case VectorT(e) => e.LeafT? || (e.StructT? && e.id < |c.structs|)
    case OptionalT(t) => TypeOk(c, t)
  }

  ghost predicate SchemaOk(c: Schema) {
    forall i: nat, k: nat | i < |c.structs| && k < |c.structs[i].members| :: TypeOk(c, c.structs[i].members[k].ty)
  }

  function Blank(c: Schema, ty: Type): Out {
    match ty
    case LeafT(_) => LeafO("")
    case StructT(i) => if i < |c.structs| then c.structs[i].blank else StructO([])
    case VectorT(_) => VectorO([])
    case OptionalT(_) => OptionalO(None)
  }

  function MemberOf(o: Out, k: nat, fallback: Out): Out {
    if o.StructO? && k < |o.members| then o.members[k] else fallback
  }

  /** Below `threshold` fields a struct is bound by scanning, at or above it through the index. */
  function Matches(fields: seq<Field>, members: nat, threshold: nat, buckets: nat, name: string): (ps: seq<nat>)
    requires buckets > 0
    ensures ps == Scan(fields, |fields|, name)
    ensures forall i | 0 <= i < |ps| :: ps[i] < |fields|
  {
    HashedIsLinear(fields, |fields|, buckets, name);
    if members < threshold then Scan(fields, |fields|, name) else Probe(Table(fields, |fields|, buckets), name)
  }

  predicate Known(members: seq<Member>, name: string) {
    exists k :: 0 <= k < |members| && IEquals(name, members[k].name)
  }

  /** The first entry, from i on, that no member is named like. */
  function FirstUnknown(fields: seq<Field>, members: seq<Member>, i: nat): Option<string>
    requires i <= |fields|
    decreases |fields| - i
  {
    if i == |fields| then None
    else if !Known(members, fields[i].name) then Some(fields[i].name)
    else FirstUnknown(fields, members, i + 1)
  }

  /** How a binding is carried out. */
  datatype Mode = Mode(strict: bool, threshold: nat, buckets: nat)

  ghost predicate ModeOk(m: Mode) { m.buckets > 0 }

  // ---------------------------------------------------------------- binding a read-only source

  function BindStruct(c: Schema, m: Mode, fields: seq<Field>, id: nat, before: Out): Result<Out, Error>
    requires SchemaOk(c) && ModeOk(m) && id < |c.structs|
    decreases fields, 3, 0, LeafT(0)
  {
    var members := c.structs[id].members;
    var unknown := FirstUnknown(fields, members, 0);
    if m.strict && unknown.Some? then Err(Unknown(unknown.value))
    else
      match BindMembers(c, m, fields, id, |members|, before)
      case Err(e) => Err(e)
      case Ok(outs) => Ok(StructO(outs))
  }

  /** The first k members, in order; the first failure ends it. */
  function BindMembers(c: Schema, m: Mode, fields: seq<Field>, id: nat, k: nat, before: Out): Result<seq<Out>, Error>
    requires SchemaOk(c) && ModeOk(m) && id < |c.structs| && k <= |c.structs[id].members|
    decreases fields, 2, k, LeafT(0)
  {
    if k == 0 then Ok([])
    else
      match BindMembers(c, m, fields, id, k - 1, before)
      case Err(e) => Err(e)
      case Ok(outs) =>
        var f := c.structs[id].members[k - 1];
        match BindNamed(c, m, fields, |c.structs[id].members|, f.ty, f.name, MemberOf(before, k - 1, Blank(c, f.ty)), true)
        case Err(e) => Err(e)
        case Ok(r) => Ok(outs + [r.1])
  }

  /** Whether the name was present, and the member's value afterwards. */
  function BindNamed(c: Schema, m: Mode, fields: seq<Field>, count: nat, ty: Type, name: string, before: Out, required: bool): Result<(bool, Out), Error>
    requires SchemaOk(c) && ModeOk(m) && TypeOk(c, ty)
    decreases fields, 1, 0, ty
  {
    match ty
    case OptionalT(inner) =>
      (match BindNamed(c, m, fields, count, inner, name, Blank(c, inner), false)
       case Err(e) => Err(e)
       case Ok(r) => Ok((r.0, if r.0 then OptionalO(Some(r.1)) else before)))
    case VectorT(elem) =>
      var ps := Matches(fields, count, m.threshold, m.buckets, name);
      (match BindElems(c, m, fields, ps, |ps|, elem, name)
       case Err(e) => Err(e)
       case Ok(outs) => Ok((ps != [], VectorO(outs))))
    case _ => BindSingle(c, m, fields, Matches(fields, count, m.threshold, m.buckets, name), ty, name, before, required)
  }

  /** A leaf or nested struct: at most one entry may be named like it. */
  function BindSingle(c: Schema, m: Mode, fields: seq<Field>, ps: seq<nat>, ty: Type, name: string, before: Out, required: bool): Result<(bool, Out), Error>
    requires SchemaOk(c) && ModeOk(m) && TypeOk(c, ty) && (ty.LeafT? || ty.StructT?)
    requires forall i | 0 <= i < |ps| :: ps[i] < |fields|
    decreases fields, 0, 1, LeafT(0)
  {
    match Single(ps)
    case Err(_) => Err(Ambiguous(name))
    case Ok(found) =>
      if found.None? then (if required then Err(Missing(name)) else Ok((false, before)))
      else
        match BindOne(c, m, fields, found.value, ty, name, before)
        case Err(e) => Err(e)
        case Ok(o) => Ok((true, o))
  }

  function BindElems(c: Schema, m: Mode, fields: seq<Field>, ps: seq<nat>, k: nat, elem: Type, name: string): Result<seq<Out>, Error>
    requires SchemaOk(c) && ModeOk(m) && TypeOk(c, elem) && (elem.LeafT? || elem.StructT?)
    requires k <= |ps| && forall i | 0 <= i < |ps| :: ps[i] < |fields|
    decreases fields, 0, k + 1, LeafT(0)
  {
    if k == 0 then Ok([])
    else
      match BindElems(c, m, fields, ps, k - 1, elem, name)
      case Err(e) => Err(e)
      case Ok(outs) =>
        match BindOne(c, m, fields, ps[k - 1], elem, name, Blank(c, elem))
        case Err(e) => Err(e)
        case Ok(o) => Ok(outs + [o])
  }

  function BindOne(c: Schema, m: Mode, fields: seq<Field>, p: nat, ty: Type, name: string, before: Out): Result<Out, Error>
    requires SchemaOk(c) && ModeOk(m) && TypeOk(c, ty) && (ty.LeafT? || ty.StructT?) && p < |fields|
    decreases fields, 0, 0, LeafT(0)
  {
    match fields[p].value
    case LeafV(leaf) =>
      if ty.StructT? then Err(NotAStruct(name))
      else (match c.convert(ty.kind, leaf) case None => Err(BadLeaf(name)) case Some(x) => Ok(LeafO(x)))
    case StructV(nested) =>
      if ty.LeafT? then Err(NotALeaf(name)) else BindStruct(c, m, nested, ty.id, before)
  }

  // ---------------------------------------------------------------- the strategy never shows

  /** Same strictness: same outcome, errors included. Strict then lenient: what strict accepts, lenient reads alike. */
  ghost predicate Agree<R>(m: Mode, m': Mode, r: Result<R, Error>, r': Result<R, Error>) {
    (m.strict == m'.strict ==> r == r') && (m.strict && r.Ok? ==> r == r')
  }

  lemma {:induction false} StructsAgree(c: Schema, m: Mode, m': Mode, fields: seq<Field>, id: nat, before: Out)
    requires SchemaOk(c) && ModeOk(m) && ModeOk(m') && id < |c.structs|
    ensures Agree(m, m', BindStruct(c, m, fields, id, before), BindStruct(c, m', fields, id, before))
    decreases fields, 3, 0, LeafT(0)
  {
    MembersAgree(c, m, m', fields, id, |c.structs[id].members|, before);
  }

  lemma {:induction false} MembersAgree(c: Schema, m: Mode, m': Mode, fields: seq<Field>, id: nat, k: nat, before: Out)
    requires SchemaOk(c) && ModeOk(m) && ModeOk(m') && id < |c.structs| && k <= |c.structs[id].members|
    ensures Agree(m, m', BindMembers(c, m, fields, id, k, before), BindMembers(c, m', fields, id, k, before))
    decreases fields, 2, k, LeafT(0)
  {
    if k > 0 {
      var f := c.structs[id].members[k - 1];
      MembersAgree(c, m, m', fields, id, k - 1, before);
      NamedAgree(c, m, m', fields, |c.structs[id].members|, f.ty, f.name, MemberOf(before, k - 1, Blank(c, f.ty)), true);
    }
  }

  lemma {:induction false} NamedAgree(c: Schema, m: Mode, m': Mode, fields: seq<Field>, count: nat, ty: Type, name: string, before: Out, required: bool)
    requires SchemaOk(c) && ModeOk(m) && ModeOk(m') && TypeOk(c, ty)
    ensures Agree(m, m', BindNamed(c, m, fields, count, ty, name, before, required), BindNamed(c, m', fields, count, ty, name, before, required))
    decreases fields, 1, 0, ty
  {
    var ps := Scan(fields, |fields|, name);
    match ty
    case OptionalT(inner) => NamedAgree(c, m, m', fields, count, inner, name, Blank(c, inner), false);
    case VectorT(elem) => ElemsAgree(c, m, m', fields, ps, |ps|, elem, name);
    case _ => if |ps| == 1 { OneAgrees(c, m, m', fields, ps[0], ty, name, before); }
  }

  lemma {:induction false} ElemsAgree(c: Schema, m: Mode, m': Mode, fields: seq<Field>, ps: seq<nat>, k: nat, elem: Type, name: string)
    requires SchemaOk(c) && ModeOk(m) && ModeOk(m') && TypeOk(c, elem) && (elem.LeafT? || elem.StructT?)
    requires k <= |ps| && forall i | 0 <= i < |ps| :: ps[i] < |fields|
    ensures Agree(m, m', BindElems(c, m, fields, ps, k, elem, name), BindElems(c, m', fields, ps, k, elem, name))
    decreases fields, 0, k + 1, LeafT(0)
  {
    if k > 0 {
      ElemsAgree(c, m, m', fields, ps, k - 1, elem, name);
      OneAgrees(c, m, m', fields, ps[k - 1], elem, name, Blank(c, elem));
    }
  }

  lemma {:induction false} OneAgrees(c: Schema, m: Mode, m': Mode, fields: seq<Field>, p: nat, ty: Type, name: string, before: Out)
    requires SchemaOk(c) && ModeOk(m) && ModeOk(m') && TypeOk(c, ty) && (ty.LeafT? || ty.StructT?) && p < |fields|
    ensures Agree(m, m', BindOne(c, m, fields, p, ty, name, before), BindOne(c, m', fields, p, ty, name, before))
    decreases fields, 0, 0, LeafT(0)
  {
    if fields[p].value.StructV? && ty.StructT? { StructsAgree(c, m, m', fields[p].value.fields, ty.id, before); }
  }

  /** Binding is the same whichever side of the threshold the struct falls on, and for any table size. */
  lemma ThresholdIsInvisible(c: Schema, strict: bool, t: nat, b: nat, t': nat, b': nat, fields: seq<Field>, id: nat, before: Out)
    requires SchemaOk(c) && b > 0 && b' > 0 && id < |c.structs|
    ensures BindStruct(c, Mode(strict, t, b), fields, id, before) == BindStruct(c, Mode(strict, t', b'), fields, id, before)
  {
    StructsAgree(c, Mode(strict, t, b), Mode(strict, t', b'), fields, id, before);
  }

  /** Strict mode only ever rejects: what it accepts, lenient mode binds to the same value. */
  lemma StrictOnlyRejects(c: Schema, m: Mode, fields: seq<Field>, id: nat, before: Out)
    requires SchemaOk(c) && ModeOk(m) && m.strict && id < |c.structs|
    requires BindStruct(c, m, fields, id, before).Ok?
    ensures BindStruct(c, m.(strict := false), fields, id, before) == BindStruct(c, m, fields, id, before)
    ensures forall p | 0 <= p < |fields| :: Known(c.structs[id].members, fields[p].name)
  {
    StructsAgree(c, m, m.(strict := false), fields, id, before);
    NoUnknown(fields, c.structs[id].members, 0);
  }

  lemma {:induction false} NoUnknown(fields: seq<Field>, members: seq<Member>, i: nat)
    requires i <= |fields|
    ensures FirstUnknown(fields, members, i).None? <==> forall p | i <= p < |fields| :: Known(members, fields[p].name)
    decreases |fields| - i
  {
    if i < |fields| { NoUnknown(fields, members, i + 1); }
  }

  // ---------------------------------------------------------------- what binding yields

  /** A leaf or nested struct no entry is named like: an error where one is required. */
  lemma ScalarMissing(c: Schema, m: Mode, fields: seq<Field>, count: nat, ty: Type, name: string, before: Out, required: bool)
    requires SchemaOk(c) && ModeOk(m) && TypeOk(c, ty) && (ty.LeafT? || ty.StructT?)
    requires forall p | 0 <= p < |fields| :: !IEquals(fields[p].name, name)
    ensures BindNamed(c, m, fields, count, ty, name, before, required) == if required then Err(Missing(name)) else Ok((false, before))
  {
    ScanFindsNone(fields, |fields|, name);
  }

  /** Two entries named like it: an error. */
  lemma ScalarAmbiguous(c: Schema, m: Mode, fields: seq<Field>, count: nat, ty: Type, name: string, before: Out, required: bool, p: nat, q: nat)
    requires SchemaOk(c) && ModeOk(m) && TypeOk(c, ty) && (ty.LeafT? || ty.StructT?)
    requires p < q < |fields| && IEquals(fields[p].name, name) && IEquals(fields[q].name, name)
    ensures BindNamed(c, m, fields, count, ty, name, before, required) == Err(Ambiguous(name))
  {
    ScanFindsAll(fields, |fields|, name, p);
    ScanFindsAll(fields, |fields|, name, q);
  }

  /** Exactly one entry named like it: its text converted, or its fields bound, if its shape is the member's. */
  lemma ScalarPresent(c: Schema, m: Mode, fields: seq<Field>, count: nat, ty: Type, name: string, before: Out, required: bool, p: nat)
    requires SchemaOk(c) && ModeOk(m) && TypeOk(c, ty) && (ty.LeafT? || ty.StructT?)
    requires p < |fields| && forall q | 0 <= q < |fields| :: IEquals(fields[q].name, name) <==> q == p
    ensures BindNamed(c, m, fields, count, ty, name, before, required) ==
      match (fields[p].value, ty)
      case (LeafV(leaf), LeafT(kind)) =>
        (match c.convert(kind, leaf) case Some(x) => Ok((true, LeafO(x))) case None => Err(BadLeaf(name)))
      case (StructV(nested), StructT(id)) =>
        (match BindStruct(c, m, nested, id, before) case Ok(o) => Ok((true, o)) case Err(e) => Err(e))
      case (LeafV(_), _) => Err(NotAStruct(name))
      case (StructV(_), _) => Err(NotALeaf(name))
  {
    ScanFindsOne(fields, |fields|, name, p);
    var ps := Scan(fields, |fields|, name);
    assert ps == [p];
    assert BindSingle(c, m, fields, ps, ty, name, before, required) ==
      match BindOne(c, m, fields, p, ty, name, before) case Err(e) => Err(e) case Ok(o) => Ok((true, o));
    hide BindStruct;
  }

  lemma {:induction false} ScanFindsOne(fields: seq<Field>, n: nat, name: string, p: nat)
    requires p < |fields| && n <= |fields| && forall q | 0 <= q < |fields| :: IEquals(fields[q].name, name) <==> q == p
    ensures Scan(fields, n, name) == if p < n then [p] else []
  {
    hide IEquals;
    if n == 0 {
      assert Scan(fields, 0, name) == [];
    } else {
      ScanFindsOne(fields, n - 1, name, p);
      ScanStep(fields, n - 1, name);
      hide Scan;
    }
  }

  lemma {:induction false} ScanOfLonger(fields: seq<Field>, f: Field, n: nat, name: string)
    requires n <= |fields|
    ensures Scan(fields + [f], n, name) == Scan(fields, n, name)
  {
    if n > 0 { ScanOfLonger(fields, f, n - 1, name); }
  }

  lemma OneOfLonger(c: Schema, m: Mode, fields: seq<Field>, other: seq<Field>, p: nat, q: nat, ty: Type, name: string, before: Out)
    requires SchemaOk(c) && ModeOk(m) && TypeOk(c, ty) && (ty.LeafT? || ty.StructT?)
    requires p < |fields| && q < |other| && fields[p].value == other[q].value
    ensures BindOne(c, m, fields, p, ty, name, before) == BindOne(c, m, other, q, ty, name, before)
  {}

  lemma {:induction false} ElemsOfLonger(c: Schema, m: Mode, fields: seq<Field>, f: Field, ps: seq<nat>, x: nat, k: nat, elem: Type, name: string)
    requires SchemaOk(c) && ModeOk(m) && TypeOk(c, elem) && (elem.LeafT? || elem.StructT?)
    requires k <= |ps| && x <= |fields| && forall i | 0 <= i < |ps| :: ps[i] < |fields|
    ensures BindElems(c, m, fields + [f], ps + [x], k, elem, name) == BindElems(c, m, fields, ps, k, elem, name)
    decreases k
  {
    hide BindOne;
    if k > 0 {
      ElemsOfLonger(c, m, fields, f, ps, x, k - 1, elem, name);
      OneOfLonger(c, m, fields + [f], fields, ps[k - 1], ps[k - 1], elem, name, Blank(c, elem));
    }
  }

  /**
   * A vector binds to its entries' own bindings, in list order: one entry more that is named like the member
   * adds what it binds to alone, after all the others, or its error; any other entry changes nothing.
   */
  lemma VectorGrowsByEntry(c: Schema, m: Mode, fields: seq<Field>, f: Field, count: nat, elem: Type, name: string, before: Out, required: bool)
    requires SchemaOk(c) && ModeOk(m) && TypeOk(c, VectorT(elem))
    ensures BindNamed(c, m, [], count, VectorT(elem), name, before, required) == Ok((false, VectorO([])))
    ensures elem.StructT? ==> Blank(c, elem) == c.structs[elem.id].blank
    ensures var shorter := BindNamed(c, m, fields, count, VectorT(elem), name, before, required);
      var longer := BindNamed(c, m, fields + [f], count, VectorT(elem), name, before, required);
      && (shorter.Ok? ==> shorter.value.1.VectorO?)
      && longer ==
        if !IEquals(f.name, name) || shorter.Err? then shorter
        else
          match BindNamed(c, m, [f], count, elem, name, Blank(c, elem), true)
          case Err(e) => Err(e)
          case Ok(r) => Ok((true, VectorO(shorter.value.1.elems + [r.1])))
  {
    assert elem.StructT? ==> Blank(c, elem) == c.structs[elem.id].blank;
    hide *;
    VectorIs(c, m, [], count, elem, name, before, required);
    VectorIs(c, m, fields, count, elem, name, before, required);
    NoEntries(name);
    if IEquals(f.name, name) {
      EntryAdded(c, m, fields, f, count, elem, name, before, required);
    } else {
      EntrySkipped(c, m, fields, f, count, elem, name, before, required);
    }
  }

  lemma NoEntries(name: string)
    ensures Scan([], 0, name) == []
  {}

  lemma EntrySkipped(c: Schema, m: Mode, fields: seq<Field>, f: Field, count: nat, elem: Type, name: string, before: Out, required: bool)
    requires SchemaOk(c) && ModeOk(m) && TypeOk(c, VectorT(elem)) && !IEquals(f.name, name)
    ensures BindNamed(c, m, fields + [f], count, VectorT(elem), name, before, required) == BindNamed(c, m, fields, count, VectorT(elem), name, before, required)
  {
    var longer, ps := fields + [f], Scan(fields, |fields|, name);
    ScanOfLonger(fields, f, |fields|, name);
    ScanStep(longer, |fields|, name);
    SameElems(c, m, longer, fields, ps, elem, name);
    VectorIs(c, m, fields, count, elem, name, before, required);
    VectorIs(c, m, longer, count, elem, name, before, required);
    hide *;
    assert Scan(longer, |longer|, name) == ps;
  }

  lemma EntryAdded(c: Schema, m: Mode, fields: seq<Field>, f: Field, count: nat, elem: Type, name: string, before: Out, required: bool)
    requires SchemaOk(c) && ModeOk(m) && TypeOk(c, VectorT(elem)) && IEquals(f.name, name)
    ensures var shorter := BindNamed(c, m, fields, count, VectorT(elem), name, before, required);
      && (shorter.Ok? ==> shorter.value.1.VectorO?)
      && BindNamed(c, m, fields + [f], count, VectorT(elem), name, before, required) ==
        match shorter
        case Err(e) => Err(e)
        case Ok(was) =>
          match BindNamed(c, m, [f], count, elem, name, Blank(c, elem), true)
          case Err(e) => Err(e)
          case Ok(r) => Ok((true, VectorO(was.1.elems + [r.1])))
  {
    var n, longer, ps := |fields|, fields + [f], Scan(fields, |fields|, name);
    var qs := ps + [n];
    ScanOfLonger(fields, f, n, name);
    ScanStep(longer, n, name);
    assert Scan(longer, |longer|, name) == qs;
    VectorIs(c, m, fields, count, elem, name, before, required);
    VectorIs(c, m, longer, count, elem, name, before, required);
    ElemsOfLonger(c, m, fields, f, ps, n, |ps|, elem, name);
    ElemsStep(c, m, longer, ps, n, elem, name);
    OneOfLonger(c, m, longer, [f], n, 0, elem, name, Blank(c, elem));
    OneAlone(c, m, f, count, elem, name);
    hide *;
    assert |qs| == |ps| + 1;
    assert BindElems(c, m, longer, Scan(longer, |longer|, name), |qs|, elem, name) == BindElems(c, m, longer, ps + [n], |ps| + 1, elem, name);
  }

  lemma VectorIs(c: Schema, m: Mode, fields: seq<Field>, count: nat, elem: Type, name: string, before: Out, required: bool)
    requires SchemaOk(c) && ModeOk(m) && TypeOk(c, VectorT(elem))
    ensures var ps := Scan(fields, |fields|, name);
      && BindNamed(c, m, fields, count, VectorT(elem), name, before, required) ==
        (match BindElems(c, m, fields, ps, |ps|, elem, name) case Err(e) => Err(e) case Ok(outs) => Ok((ps != [], VectorO(outs))))
      && (ps == [] ==> BindElems(c, m, fields, ps, |ps|, elem, name) == Ok([]))
  {}

  lemma ElemsStep(c: Schema, m: Mode, fields: seq<Field>, ps: seq<nat>, x: nat, elem: Type, name: string)
    requires SchemaOk(c) && ModeOk(m) && TypeOk(c, elem) && (elem.LeafT? || elem.StructT?)
    requires x < |fields| && forall i | 0 <= i < |ps| :: ps[i] < |fields|
    ensures BindElems(c, m, fields, ps + [x], |ps| + 1, elem, name) ==
      match BindElems(c, m, fields, ps + [x], |ps|, elem, name)
      case Err(e) => Err(e)
      case Ok(outs) =>
        match BindOne(c, m, fields, x, elem, name, Blank(c, elem))
        case Err(e) => Err(e)
        case Ok(o) => Ok(outs + [o])
  {
    hide BindOne;
  }

  lemma SameElems(c: Schema, m: Mode, fields: seq<Field>, other: seq<Field>, ps: seq<nat>, elem: Type, name: string)
    requires SchemaOk(c) && ModeOk(m) && TypeOk(c, elem) && (elem.LeafT? || elem.StructT?)
    requires forall i | 0 <= i < |ps| :: ps[i] < |fields| && ps[i] < |other| && fields[ps[i]].value == other[ps[i]].value
    ensures BindElems(c, m, fields, ps, |ps|, elem, name) == BindElems(c, m, other, ps, |ps|, elem, name)
  {
    ElemsByValue(c, m, fields, other, ps, ps, |ps|, elem, name);
  }

  lemma OneAlone(c: Schema, m: Mode, f: Field, count: nat, ty: Type, name: string)
    requires SchemaOk(c) && ModeOk(m) && TypeOk(c, ty) && (ty.LeafT? || ty.StructT?) && IEquals(f.name, name)
    ensures BindNamed(c, m, [f], count, ty, name, Blank(c, ty), true) ==
      match BindOne(c, m, [f], 0, ty, name, Blank(c, ty)) case Err(e) => Err(e) case Ok(o) => Ok((true, o))
  {
    ScanFindsOne([f], 1, name, 0);
    hide BindOne;
  }

  /** With an entry named like it, a member is present, and it does not matter whether it had to be. */
  lemma {:induction false} PresentIsRequired(c: Schema, m: Mode, fields: seq<Field>, count: nat, ty: Type, name: string, before: Out, p: nat)
    requires SchemaOk(c) && ModeOk(m) && TypeOk(c, ty) && p < |fields| && IEquals(fields[p].name, name)
    ensures BindNamed(c, m, fields, count, ty, name, before, true) == BindNamed(c, m, fields, count, ty, name, before, false)
    ensures var r := BindNamed(c, m, fields, count, ty, name, before, true); r.Ok? ==> r.value.0
    decreases ty
  {
    hide BindOne;
    hide BindElems;
    ScanFindsAll(fields, |fields|, name, p);
    if ty.OptionalT? { PresentIsRequired(c, m, fields, count, ty.inner, name, Blank(c, ty.inner), p); }
  }

  /** An optional member with an entry named like it holds what its inner type binds to there, or fails alike. */
  lemma OptionalPresent(c: Schema, m: Mode, fields: seq<Field>, count: nat, inner: Type, name: string, before: Out, required: bool, p: nat)
    requires SchemaOk(c) && ModeOk(m) && TypeOk(c, inner) && p < |fields| && IEquals(fields[p].name, name)
    ensures inner.StructT? ==> Blank(c, inner) == c.structs[inner.id].blank
    ensures BindNamed(c, m, fields, count, OptionalT(inner), name, before, required) ==
      match BindNamed(c, m, fields, count, inner, name, Blank(c, inner), true)
      case Err(e) => Err(e)
      case Ok(r) => Ok((true, OptionalO(Some(r.1))))
  {
    PresentIsRequired(c, m, fields, count, inner, name, Blank(c, inner), p);
  }

  /** What member k of struct id binds to in the list. */
  function MemberBinding(c: Schema, m: Mode, fields: seq<Field>, id: nat, before: Out, k: nat): Result<(bool, Out), Error>
    requires SchemaOk(c) && ModeOk(m) && id < |c.structs| && k < |c.structs[id].members|
  {
    var f := c.structs[id].members[k];
    BindNamed(c, m, fields, |c.structs[id].members|, f.ty, f.name, MemberOf(before, k, Blank(c, f.ty)), true)
  }

  lemma {:induction false} MembersAre(c: Schema, m: Mode, fields: seq<Field>, id: nat, n: nat, before: Out)
    requires SchemaOk(c) && ModeOk(m) && id < |c.structs| && n <= |c.structs[id].members|
    ensures var r := BindMembers(c, m, fields, id, n, before);
      match r
      case Ok(outs) =>
        |outs| == n && forall k: nat | k < n ::
          var b := MemberBinding(c, m, fields, id, before, k); b.Ok? && b.value.1 == outs[k]
      case Err(e) =>
        exists k: nat :: k < n && MemberBinding(c, m, fields, id, before, k) == Err(e)
          && forall j: nat | j < k :: MemberBinding(c, m, fields, id, before, j).Ok?
    decreases n
  {
    hide BindNamed;
    if n > 0 {
      MembersAre(c, m, fields, id, n - 1, before);
      var last := MemberBinding(c, m, fields, id, before, n - 1);
      assert BindMembers(c, m, fields, id, n, before) ==
        match BindMembers(c, m, fields, id, n - 1, before)
        case Err(e) => Err(e)
        case Ok(outs) => (match last case Err(e) => Err(e) case Ok(r) => Ok(outs + [r.1]));
    }
  }

  /**
   * A struct binds to its members' bindings in declaration order, or to the error of the first member that
   * fails; in strict mode the first entry no member is named like is reported before anything is bound.
   */
  lemma StructBindsMembers(c: Schema, m: Mode, fields: seq<Field>, id: nat, before: Out)
    requires SchemaOk(c) && ModeOk(m) && id < |c.structs|
    ensures var r, members := BindStruct(c, m, fields, id, before), c.structs[id].members;
      if m.strict && exists p :: 0 <= p < |fields| && !Known(members, fields[p].name) then
        exists p :: 0 <= p < |fields| && !Known(members, fields[p].name)
          && (forall q | 0 <= q < p :: Known(members, fields[q].name)) && r == Err(Unknown(fields[p].name))
      else
        match r
        case Ok(o) =>
          o.StructO? && |o.members| == |members|
          && forall k: nat | k < |members| :: MemberBinding(c, m, fields, id, before, k).Ok? && o.members[k] == MemberBinding(c, m, fields, id, before, k).value.1
        case Err(e) =>
          exists k: nat :: k < |members| && MemberBinding(c, m, fields, id, before, k) == Err(e)
            && forall j: nat | j < k :: MemberBinding(c, m, fields, id, before, j).Ok?
  {
    var members := c.structs[id].members;
    NoUnknown(fields, members, 0);
    FirstUnknownIsFirst(fields, members, 0);
    hide Known;
    MembersAre(c, m, fields, id, |members|, before);
    hide MemberBinding;
    hide BindMembers;
  }

  lemma {:induction false} FirstUnknownIsFirst(fields: seq<Field>, members: seq<Member>, i: nat)
    requires i <= |fields|
    ensures FirstUnknown(fields, members, i).Some? ==>
      exists p :: i <= p < |fields| && !Known(members, fields[p].name) && FirstUnknown(fields, members, i).value == fields[p].name
        && forall q | i <= q < p :: Known(members, fields[q].name)
    decreases |fields| - i
  {
    hide Known;
    if i < |fields| && Known(members, fields[i].name) { FirstUnknownIsFirst(fields, members, i + 1); }
  }

  // ---------------------------------------------------------------- absence and order

  lemma {:induction false} MembersCount(c: Schema, m: Mode, fields: seq<Field>, id: nat, k: nat, before: Out)
    requires SchemaOk(c) && ModeOk(m) && id < |c.structs| && k <= |c.structs[id].members|
    requires BindMembers(c, m, fields, id, k, before).Ok?
    ensures |BindMembers(c, m, fields, id, k, before).value| == k
  {
    if k > 0 { MembersCount(c, m, fields, id, k - 1, before); }
  }

  lemma {:induction false} AbsentIn(c: Schema, m: Mode, fields: seq<Field>, count: nat, ty: Type, name: string, before: Out)
    requires SchemaOk(c) && ModeOk(m) && TypeOk(c, ty) && Scan(fields, |fields|, name) == []
    ensures var r := BindNamed(c, m, fields, count, ty, name, before, false);
      r.Ok? && !r.value.0 && (!ty.VectorT? ==> r.value.1 == before)
    decreases ty
  {
    if ty.OptionalT? { AbsentIn(c, m, fields, count, ty.inner, name, Blank(c, ty.inner)); }
  }

  lemma AbsentOptional(c: Schema, m: Mode, fields: seq<Field>, count: nat, ty: Type, name: string, before: Out, required: bool)
    requires SchemaOk(c) && ModeOk(m) && TypeOk(c, ty) && ty.OptionalT?
    requires forall p | 0 <= p < |fields| :: !IEquals(fields[p].name, name)
    ensures BindNamed(c, m, fields, count, ty, name, before, required) == Ok((false, before))
  {
    ScanFindsNone(fields, |fields|, name);
    AbsentIn(c, m, fields, count, ty.inner, name, Blank(c, ty.inner));
  }

  /** An optional member no entry is named like keeps whatever the caller had in it. */
  lemma {:induction false} AbsentOptionalUntouched(c: Schema, m: Mode, fields: seq<Field>, id: nat, k: nat, n: nat, before: Out)
    requires SchemaOk(c) && ModeOk(m) && id < |c.structs| && k < n <= |c.structs[id].members|
    requires c.structs[id].members[k].ty.OptionalT?
    requires forall p | 0 <= p < |fields| :: !IEquals(fields[p].name, c.structs[id].members[k].name)
    requires BindMembers(c, m, fields, id, n, before).Ok?
    ensures |BindMembers(c, m, fields, id, n, before).value| == n
    ensures BindMembers(c, m, fields, id, n, before).value[k] == MemberOf(before, k, OptionalO(None))
    decreases n
  {
    hide BindNamed;
    hide IEquals;
    var f := c.structs[id].members[k];
    MembersCount(c, m, fields, id, n, before);
    MembersCount(c, m, fields, id, n - 1, before);
    if k < n - 1 {
      AbsentOptionalUntouched(c, m, fields, id, k, n - 1, before);
    } else {
      AbsentOptional(c, m, fields, |c.structs[id].members|, f.ty, f.name, MemberOf(before, k, OptionalO(None)), true);
    }
  }

  /** Two lists that hold the same values under every name, in the same order per name. */
  ghost predicate SamePerName(fields: seq<Field>, other: seq<Field>) {
    forall name: string ::
      var ps, qs := Scan(fields, |fields|, name), Scan(other, |other|, name);
      |ps| == |qs| && forall i | 0 <= i < |ps| :: fields[ps[i]].value == other[qs[i]].value
  }

  lemma {:induction false} ElemsByValue(c: Schema, m: Mode, fields: seq<Field>, other: seq<Field>, ps: seq<nat>, qs: seq<nat>, k: nat, elem: Type, name: string)
    requires SchemaOk(c) && ModeOk(m) && TypeOk(c, elem) && (elem.LeafT? || elem.StructT?)
    requires |ps| == |qs| && k <= |ps| && (forall i | 0 <= i < |ps| :: ps[i] < |fields| && qs[i] < |other|)
    requires forall i | 0 <= i < |ps| :: fields[ps[i]].value == other[qs[i]].value
    ensures BindElems(c, m, fields, ps, k, elem, name) == BindElems(c, m, other, qs, k, elem, name)
    decreases k
  {
    if k > 0 { ElemsByValue(c, m, fields, other, ps, qs, k - 1, elem, name); }
  }

  lemma SingleByValue(c: Schema, m: Mode, fields: seq<Field>, other: seq<Field>, ps: seq<nat>, qs: seq<nat>, ty: Type, name: string, before: Out, required: bool)
    requires SchemaOk(c) && ModeOk(m) && TypeOk(c, ty) && (ty.LeafT? || ty.StructT?)
    requires |ps| == |qs| && (forall i | 0 <= i < |ps| :: ps[i] < |fields| && qs[i] < |other|)
    requires forall i | 0 <= i < |ps| :: fields[ps[i]].value == other[qs[i]].value
    ensures BindSingle(c, m, fields, ps, ty, name, before, required) == BindSingle(c, m, other, qs, ty, name, before, required)
  {
    if |ps| == 1 {
      assert BindOne(c, m, fields, ps[0], ty, name, before) == BindOne(c, m, other, qs[0], ty, name, before);
    }
  }

  lemma {:induction false} NamedByValue(c: Schema, m: Mode, fields: seq<Field>, other: seq<Field>, count: nat, ty: Type, name: string, before: Out, required: bool)
    requires SchemaOk(c) && ModeOk(m) && TypeOk(c, ty) && SamePerName(fields, other)
    ensures BindNamed(c, m, fields, count, ty, name, before, required) == BindNamed(c, m, other, count, ty, name, before, required)
    decreases ty
  {
    var ps, qs := Scan(fields, |fields|, name), Scan(other, |other|, name);
    match ty
    case OptionalT(inner) => NamedByValue(c, m, fields, other, count, inner, name, Blank(c, inner), false);
    case VectorT(elem) => ElemsByValue(c, m, fields, other, ps, qs, |ps|, elem, name);
    case _ => SingleByValue(c, m, fields, other, ps, qs, ty, name, before, required);
  }

  lemma {:induction false} MembersByValue(c: Schema, m: Mode, fields: seq<Field>, other: seq<Field>, id: nat, k: nat, before: Out)
    requires SchemaOk(c) && ModeOk(m) && id < |c.structs| && k <= |c.structs[id].members| && SamePerName(fields, other)
    ensures BindMembers(c, m, fields, id, k, before) == BindMembers(c, m, other, id, k, before)
    decreases k
  {
    hide BindNamed;
    hide SamePerName;
    if k > 0 {
      var f := c.structs[id].members[k - 1];
      MembersByValue(c, m, fields, other, id, k - 1, before);
      NamedByValue(c, m, fields, other, |c.structs[id].members|, f.ty, f.name, MemberOf(before, k - 1, Blank(c, f.ty)), true);
    }
  }

  /** Reordering differently named keys, or changing their case, changes nothing. */
  lemma KeyOrderIrrelevant(c: Schema, m: Mode, fields: seq<Field>, other: seq<Field>, id: nat, before: Out)
    requires SchemaOk(c) && ModeOk(m) && id < |c.structs| && SamePerName(fields, other)
    ensures !m.strict ==> BindStruct(c, m, fields, id, before) == BindStruct(c, m, other, id, before)
    ensures BindStruct(c, m, fields, id, before).Ok? ==> BindStruct(c, m, other, id, before) == BindStruct(c, m, fields, id, before)
  {
    var members := c.structs[id].members;
    MembersByValue(c, m, fields, other, id, |members|, before);
    if FirstUnknown(fields, members, 0).None? {
      NoUnknown(fields, members, 0);
      forall q | 0 <= q < |other| ensures Known(members, other[q].name) {
        ScanFindsAll(other, |other|, other[q].name, q);
        var ps := Scan(fields, |fields|, other[q].name);
        assert |ps| > 0;
        var k :| 0 <= k < |members| && IEquals(fields[ps[0]].name, members[k].name);
        IEqualsTransitive(other[q].name, fields[ps[0]].name, members[k].name);
      }
      NoUnknown(other, members, 0);
    }
  }

  // ---------------------------------------------------------------- binding a source that may be consumed

  /** Which leaf types are moved out of raw text rather than parsed from it, and what a moved-from text holds. */
  datatype Moves = Moves(moved: nat -> bool, husk: string)

  function WithLeaf(fields: seq<Field>, p: nat, leaf: Leaf): seq<Field>
    requires p < |fields|
  {
    fields[p := Field(fields[p].name, LeafV(leaf))]
  }

  function WithNested(fields: seq<Field>, p: nat, nested: seq<Field>): seq<Field>
    requires p < |fields|
  {
    fields[p := Field(fields[p].name, StructV(nested))]
  }

  /** The overload over a mutable list: the outcome, and the list as it is left; d bounds the nesting. */
  function MoveStruct(c: Schema, m: Mode, mv: Moves, d: nat, fields: seq<Field>, id: nat, before: Out): (Result<Out, Error>, seq<Field>)
    requires SchemaOk(c) && ModeOk(m) && id < |c.structs|
    decreases d, 3, 0, LeafT(0)
  {
    var members := c.structs[id].members;
    var unknown := FirstUnknown(fields, members, 0);
    if m.strict && unknown.Some? then (Err(Unknown(unknown.value)), fields)
    else
      match MoveMembers(c, m, mv, d, fields, id, |members|, before)
      case (Err(e), left) => (Err(e), left)
      case (Ok(outs), left) => (Ok(StructO(outs)), left)
  }

  function MoveMembers(c: Schema, m: Mode, mv: Moves, d: nat, fields: seq<Field>, id: nat, k: nat, before: Out): (Result<seq<Out>, Error>, seq<Field>)
    requires SchemaOk(c) && ModeOk(m) && id < |c.structs| && k <= |c.structs[id].members|
    decreases d, 2, k, LeafT(0)
  {
    if k == 0 then (Ok([]), fields)
    else
      match MoveMembers(c, m, mv, d, fields, id, k - 1, before)
      case (Err(e), left) => (Err(e), left)
      case (Ok(outs), left) =>
        var f := c.structs[id].members[k - 1];
        match MoveNamed(c, m, mv, d, left, |c.structs[id].members|, f.ty, f.name, MemberOf(before, k - 1, Blank(c, f.ty)), true)
        case (Err(e), left') => (Err(e), left')
        case (Ok(r), left') => (Ok(outs + [r.1]), left')
  }

  function MoveNamed(c: Schema, m: Mode, mv: Moves, d: nat, fields: seq<Field>, count: nat, ty: Type, name: string, before: Out, required: bool): (Result<(bool, Out), Error>, seq<Field>)
    requires SchemaOk(c) && ModeOk(m) && TypeOk(c, ty)
    decreases d, 1, 0, ty
  {
    match ty
    case OptionalT(inner) =>
      (match MoveNamed(c, m, mv, d, fields, count, inner, name, Blank(c, inner), false)
       case (Err(e), left) => (Err(e), left)
       case (Ok(r), left) => (Ok((r.0, if r.0 then OptionalO(Some(r.1)) else before)), left))
    case VectorT(elem) =>
      var ps := Matches(fields, count, m.threshold, m.buckets, name);
      (match MoveElems(c, m, mv, d, fields, ps, |ps|, elem, name)
       case (Err(e), left) => (Err(e), left)
       case (Ok(outs), left) => (Ok((ps != [], VectorO(outs))), left))
    case _ => MoveSingle(c, m, mv, d, fields, Matches(fields, count, m.threshold, m.buckets, name), ty, name, before, required)
  }

  function MoveSingle(c: Schema, m: Mode, mv: Moves, d: nat, fields: seq<Field>, ps: seq<nat>, ty: Type, name: string, before: Out, required: bool): (Result<(bool, Out), Error>, seq<Field>)
    requires SchemaOk(c) && ModeOk(m) && TypeOk(c, ty) && (ty.LeafT? || ty.StructT?)
    requires forall i | 0 <= i < |ps| :: ps[i] < |fields|
    decreases d, 0, 1, LeafT(0)
  {
    match Single(ps)
    case Err(_) => (Err(Ambiguous(name)), fields)
    case Ok(found) =>
      if found.None? then (if required then Err(Missing(name)) else Ok((false, before)), fields)
      else
        match MoveOne(c, m, mv, d, fields, found.value, ty, name, before)
        case (Err(e), left) => (Err(e), left)
        case (Ok(o), left) => (Ok((true, o)), left)
  }

  function MoveElems(c: Schema, m: Mode, mv: Moves, d: nat, fields: seq<Field>, ps: seq<nat>, k: nat, elem: Type, name: string): (r: (Result<seq<Out>, Error>, seq<Field>))
    requires SchemaOk(c) && ModeOk(m) && TypeOk(c, elem) && (elem.LeafT? || elem.StructT?)
    requires k <= |ps| && forall i | 0 <= i < |ps| :: ps[i] < |fields|
    ensures |r.1| == |fields|
    decreases d, 0, k + 1, LeafT(0)
  {
    if k == 0 then (Ok([]), fields)
    else
      match MoveElems(c, m, mv, d, fields, ps, k - 1, elem, name)
      case (Err(e), left) => (Err(e), left)
      case (Ok(outs), left) =>
        match MoveOne(c, m, mv, d, left, ps[k - 1], elem, name, Blank(c, elem))
        case (Err(e), left') => (Err(e), left')
        case (Ok(o), left') => (Ok(outs + [o]), left')
  }

  function MoveOne(c: Schema, m: Mode, mv: Moves, d: nat, fields: seq<Field>, p: nat, ty: Type, name: string, before: Out): (r: (Result<Out, Error>, seq<Field>))
    requires SchemaOk(c) && ModeOk(m) && TypeOk(c, ty) && (ty.LeafT? || ty.StructT?) && p < |fields|
    ensures |r.1| == |fields|
    decreases d, 0, 0, LeafT(0)
  {
    match fields[p].value
    case LeafV(leaf) =>
      if ty.StructT? then (Err(NotAStruct(name)), fields)
      else
        var left := if mv.moved(ty.kind) && leaf.Text? then WithLeaf(fields, p, Text(mv.husk)) else fields;
        (match c.convert(ty.kind, leaf)
         case None => (Err(BadLeaf(name)), fields)
         case Some(x) => (Ok(LeafO(x)), left))
    case StructV(nested) =>
      if ty.LeafT? then (Err(NotALeaf(name)), fields)
      else if d == 0 then (Err(NotAStruct(name)), fields)
      else
        var (r, left) := MoveStruct(c, m, mv, d - 1, nested, ty.id, before);
        (r, WithNested(fields, p, left))
  }

  /** How deeply values nest. */
  function ValueDepth(v: Value): nat
    decreases v, 0
  {
    match v
    case LeafV(_) => 0
    case StructV(fields) => 1 + Depth(fields, |fields|)
  }

  function Depth(fields: seq<Field>, n: nat): nat
    requires n <= |fields|
    decreases fields, n
  {
    if n == 0 then 0
    else
      var rest, last := Depth(fields, n - 1), ValueDepth(fields[n - 1].value);
      if last > rest then last else rest
  }

  lemma {:induction false} DepthBounds(fields: seq<Field>, n: nat, p: nat)
    requires p < n <= |fields|
    ensures ValueDepth(fields[p].value) <= Depth(fields, n)
    decreases n
  {
    if p < n - 1 { DepthBounds(fields, n - 1, p); }
  }

  /** Same length and names; values may have been moved out of. */
  ghost predicate SameNames(fields: seq<Field>, left: seq<Field>) {
    |left| == |fields| && forall p | 0 <= p < |fields| :: left[p].name == fields[p].name
  }

  lemma {:induction false} ScanByNames(fields: seq<Field>, left: seq<Field>, n: nat, name: string)
    requires SameNames(fields, left) && n <= |fields|
    ensures Scan(left, n, name) == Scan(fields, n, name)
  {
    if n > 0 { ScanByNames(fields, left, n - 1, name); }
  }

  lemma {:induction false} ScanIncreases(fields: seq<Field>, n: nat, name: string)
    requires n <= |fields|
    ensures forall i, j | 0 <= i < j < |Scan(fields, n, name)| :: Scan(fields, n, name)[i] < Scan(fields, n, name)[j]
  {
    if n > 0 { ScanIncreases(fields, n - 1, name); }
  }

  /** Entries that are not called `name` are as they were. */
  ghost predicate OthersUntouched(fields: seq<Field>, left: seq<Field>, name: string) {
    SameNames(fields, left) && forall p | 0 <= p < |fields| && !IEquals(fields[p].name, name) :: left[p] == fields[p]
  }

  lemma {:induction false} StructMoves(c: Schema, m: Mode, mv: Moves, d: nat, fields: seq<Field>, id: nat, before: Out)
    requires SchemaOk(c) && ModeOk(m) && id < |c.structs| && NamesDistinct(c) && Depth(fields, |fields|) <= d
    ensures MoveStruct(c, m, mv, d, fields, id, before).0 == BindStruct(c, m, fields, id, before)
    decreases d, 3, 0, LeafT(0)
  {
    MembersMove(c, m, mv, d, fields, id, |c.structs[id].members|, before);
  }

  /** No struct has two members whose names differ only in case. */
  ghost predicate NamesDistinct(c: Schema) {
    forall i: nat, j: nat, k: nat | i < |c.structs| && j < k < |c.structs[i].members| ::
      !IEquals(c.structs[i].members[j].name, c.structs[i].members[k].name)
  }

  /** Entries named like none of the first k members are as they were. */
  ghost predicate LaterUntouched(fields: seq<Field>, left: seq<Field>, members: seq<Member>, k: nat)
    requires k <= |members|
  {
    && SameNames(fields, left)
    && forall p | 0 <= p < |fields| && !Known(members[..k], fields[p].name) :: left[p] == fields[p]
  }

  lemma {:induction false} MembersMove(c: Schema, m: Mode, mv: Moves, d: nat, fields: seq<Field>, id: nat, k: nat, before: Out)
    requires SchemaOk(c) && ModeOk(m) && id < |c.structs| && k <= |c.structs[id].members| && NamesDistinct(c) && Depth(fields, |fields|) <= d
    ensures var r := MoveMembers(c, m, mv, d, fields, id, k, before);
      && r.0 == BindMembers(c, m, fields, id, k, before)
      && (r.0.Ok? ==> LaterUntouched(fields, r.1, c.structs[id].members, k))
    decreases d, 2, k, LeafT(0)
  {
    if k > 0 {
      var members := c.structs[id].members;
      var f := members[k - 1];
      MembersMove(c, m, mv, d, fields, id, k - 1, before);
      var r := MoveMembers(c, m, mv, d, fields, id, k - 1, before);
      if r.0.Ok? {
        OwnEntriesUntouched(c, fields, r.1, id, k - 1);
        NamedMoves(c, m, mv, d, fields, r.1, |members|, f.ty, f.name, MemberOf(before, k - 1, Blank(c, f.ty)), true);
        var r' := MoveNamed(c, m, mv, d, r.1, |members|, f.ty, f.name, MemberOf(before, k - 1, Blank(c, f.ty)), true);
        if r'.0.Ok? { StillUntouched(fields, r.1, r'.1, members, k); }
      }
    }
  }

  lemma OwnEntriesUntouched(c: Schema, fields: seq<Field>, left: seq<Field>, id: nat, k: nat)
    requires id < |c.structs| && k < |c.structs[id].members| && NamesDistinct(c)
    requires LaterUntouched(fields, left, c.structs[id].members, k)
    ensures SameNames(fields, left)
    ensures forall p | 0 <= p < |fields| && IEquals(fields[p].name, c.structs[id].members[k].name) :: left[p] == fields[p]
  {
    var members := c.structs[id].members;
    forall p | 0 <= p < |fields| && IEquals(fields[p].name, members[k].name) ensures left[p] == fields[p] {
      forall j | 0 <= j < k ensures !IEquals(fields[p].name, members[..k][j].name) {
        ApartFrom(fields[p].name, members[k].name, members[j].name);
      }
    }
  }

  lemma ApartFrom(a: string, b: string, c: string)
    requires IEquals(a, b) && !IEquals(c, b)
    ensures !IEquals(a, c)
  {}

  lemma StillUntouched(fields: seq<Field>, left: seq<Field>, left': seq<Field>, members: seq<Member>, k: nat)
    requires 0 < k <= |members| && LaterUntouched(fields, left, members, k - 1) && OthersUntouched(left, left', members[k - 1].name)
    ensures LaterUntouched(fields, left', members, k)
  {
    forall p | 0 <= p < |fields| && !Known(members[..k], fields[p].name) ensures left'[p] == fields[p] {
      assert members[..k][k - 1] == members[k - 1];
      assert forall j | 0 <= j < k - 1 :: members[..k][j] == members[..k - 1][j];
    }
  }

  /** The entries about to be read are still the original ones. */
  ghost predicate MatchesIntact(fields: seq<Field>, left: seq<Field>, name: string) {
    SameNames(fields, left) && forall p | 0 <= p < |fields| && IEquals(fields[p].name, name) :: left[p] == fields[p]
  }

  lemma {:induction false} NamedMoves(c: Schema, m: Mode, mv: Moves, d: nat, fields: seq<Field>, left: seq<Field>, count: nat, ty: Type, name: string, before: Out, required: bool)
    requires SchemaOk(c) && ModeOk(m) && TypeOk(c, ty) && NamesDistinct(c) && Depth(fields, |fields|) <= d
    requires MatchesIntact(fields, left, name)
    ensures var r := MoveNamed(c, m, mv, d, left, count, ty, name, before, required);
      && r.0 == BindNamed(c, m, fields, count, ty, name, before, required)
      && OthersUntouched(left, r.1, name)
    decreases d, 1, 1, ty
  {
    if ty.OptionalT? {
      NamedMoves(c, m, mv, d, fields, left, count, ty.inner, name, Blank(c, ty.inner), false);
    } else if ty.VectorT? {
      VectorMoves(c, m, mv, d, fields, left, count, ty, name, before, required);
    } else {
      ScanByNames(fields, left, |fields|, name);
      SingleMoves(c, m, mv, d, fields, left, Scan(fields, |fields|, name), ty, name, before, required);
    }
  }

  lemma {:induction false} VectorMoves(c: Schema, m: Mode, mv: Moves, d: nat, fields: seq<Field>, left: seq<Field>, count: nat, ty: Type, name: string, before: Out, required: bool)
    requires SchemaOk(c) && ModeOk(m) && TypeOk(c, ty) && ty.VectorT? && NamesDistinct(c) && Depth(fields, |fields|) <= d
    requires MatchesIntact(fields, left, name)
    ensures var r := MoveNamed(c, m, mv, d, left, count, ty, name, before, required);
      && r.0 == BindNamed(c, m, fields, count, ty, name, before, required)
      && OthersUntouched(left, r.1, name)
    decreases d, 1, 0, ty
  {
    var ps := Scan(fields, |fields|, name);
    ScanByNames(fields, left, |fields|, name);
    ElemsMove(c, m, mv, d, fields, left, ps, |ps|, ty.elem, name);
  }

  lemma {:induction false} SingleMoves(c: Schema, m: Mode, mv: Moves, d: nat, fields: seq<Field>, left: seq<Field>, ps: seq<nat>, ty: Type, name: string, before: Out, required: bool)
    requires SchemaOk(c) && ModeOk(m) && TypeOk(c, ty) && (ty.LeafT? || ty.StructT?) && NamesDistinct(c) && Depth(fields, |fields|) <= d
    requires MatchesIntact(fields, left, name)
    requires forall i | 0 <= i < |ps| :: ps[i] < |fields| && IEquals(fields[ps[i]].name, name)
    ensures var r := MoveSingle(c, m, mv, d, left, ps, ty, name, before, required);
      && r.0 == BindSingle(c, m, fields, ps, ty, name, before, required)
      && OthersUntouched(left, r.1, name)
    decreases d, 1, 0, ty
  {
    if |ps| == 1 { OneMoves(c, m, mv, d, fields, left, ps[0], ty, name, before); }
  }

  lemma {:induction false} ElemsMove(c: Schema, m: Mode, mv: Moves, d: nat, fields: seq<Field>, left: seq<Field>, ps: seq<nat>, k: nat, elem: Type, name: string)
    requires SchemaOk(c) && ModeOk(m) && TypeOk(c, elem) && (elem.LeafT? || elem.StructT?) && NamesDistinct(c) && Depth(fields, |fields|) <= d
    requires MatchesIntact(fields, left, name) && ps == Scan(fields, |fields|, name) && k <= |ps|
    ensures var r := MoveElems(c, m, mv, d, left, ps, k, elem, name);
      && r.0 == BindElems(c, m, fields, ps, k, elem, name)
      && OthersUntouched(left, r.1, name)
      && forall i | k <= i < |ps| :: r.1[ps[i]] == left[ps[i]]
    decreases d, 0, k + 1, LeafT(0)
  {
    if k > 0 {
      ElemsMove(c, m, mv, d, fields, left, ps, k - 1, elem, name);
      ScanIncreases(fields, |fields|, name);
      var r := MoveElems(c, m, mv, d, left, ps, k - 1, elem, name);
      if r.0.Ok? { OneMoves(c, m, mv, d, fields, r.1, ps[k - 1], elem, name, Blank(c, elem)); }
    }
  }

  lemma {:induction false} OneMoves(c: Schema, m: Mode, mv: Moves, d: nat, fields: seq<Field>, left: seq<Field>, p: nat, ty: Type, name: string, before: Out)
    requires SchemaOk(c) && ModeOk(m) && TypeOk(c, ty) && (ty.LeafT? || ty.StructT?) && NamesDistinct(c)
    requires p < |fields| == |left| && left[p] == fields[p] && Depth(fields, |fields|) <= d
    ensures var r := MoveOne(c, m, mv, d, left, p, ty, name, before);
      && r.0 == BindOne(c, m, fields, p, ty, name, before)
      && SameNames(left, r.1) && forall q | 0 <= q < |left| && q != p :: r.1[q] == left[q]
    decreases d, 0, 0, LeafT(0)
  {
    DepthBounds(fields, |fields|, p);
    if fields[p].value.StructV? && ty.StructT? {
      StructMoves(c, m, mv, d - 1, fields[p].value.fields, ty.id, before);
    }
  }

  /**
   * The consuming overload gives exactly the result of the read-only one, whatever a moved-from text is
   * left holding, as long as no struct has two names that match the same keys.
   */
  lemma MovingBindsTheSame(c: Schema, m: Mode, mv: Moves, fields: seq<Field>, id: nat, before: Out)
    requires SchemaOk(c) && ModeOk(m) && id < |c.structs| && NamesDistinct(c)
    ensures MoveStruct(c, m, mv, Depth(fields, |fields|), fields, id, before).0 == BindStruct(c, m, fields, id, before)
  {
    StructMoves(c, m, mv, Depth(fields, |fields|), fields, id, before);
  }

  /** With two such names the second member finds only what the first one left behind. */
  lemma MovingDiffersOnClashingNames(husk: string)
    requires husk != "x"
    ensures exists c: Schema, m: Mode, mv: Moves, fields: seq<Field> ::
      SchemaOk(c) && ModeOk(m) && |c.structs| > 0 && mv.husk == husk
      && MoveStruct(c, m, mv, Depth(fields, |fields|), fields, 0, StructO([])).0 != BindStruct(c, m, fields, 0, StructO([]))
  {
    var twoNames := [Member("a", LeafT(0)), Member("A", LeafT(0))];
    var c := Schema([StructDef(twoNames, StructO([]))], (k: nat, l: Leaf) => if l.Text? then Some(l.s) else None);
    var m, mv := Mode(false, 16, 1), Moves(k => true, husk);
    var fields, left := [Field("a", LeafV(Text("x")))], [Field("a", LeafV(Text(husk)))];
    assert WithLeaf(fields, 0, Text(husk)) == left;
    LeafBinds(c, m, mv, fields, 2, 0, "a", Blank(c, LeafT(0)), "x");
    LeafBinds(c, m, mv, fields, 2, 0, "A", Blank(c, LeafT(0)), "x");
    LeafBinds(c, m, mv, left, 2, 0, "A", Blank(c, LeafT(0)), husk);
    hide BindNamed;
    hide MoveNamed;
    hide BindStruct;
    hide MoveStruct;
    TwoLeaves(c, m, mv, fields, left, "x", "x", husk);
  }

  lemma LeafBinds(c: Schema, m: Mode, mv: Moves, fields: seq<Field>, count: nat, kind: nat, name: string, before: Out, x: string)
    requires SchemaOk(c) && ModeOk(m) && |fields| == 1 && IEquals(fields[0].name, name)
    requires fields[0].value == LeafV(Text(x)) && c.convert(kind, Text(x)) == Some(x) && mv.moved(kind)
    ensures BindNamed(c, m, fields, count, LeafT(kind), name, before, true) == Ok((true, LeafO(x)))
    ensures MoveNamed(c, m, mv, 0, fields, count, LeafT(kind), name, before, true) == (Ok((true, LeafO(x))), WithLeaf(fields, 0, Text(mv.husk)))
  {
    ScanStep(fields, 0, name);
    var ps := Scan(fields, 1, name);
    assert ps == [0];
    assert BindOne(c, m, fields, 0, LeafT(kind), name, before) == Ok(LeafO(x));
    assert MoveOne(c, m, mv, 0, fields, 0, LeafT(kind), name, before) == (Ok(LeafO(x)), WithLeaf(fields, 0, Text(mv.husk)));
    assert BindSingle(c, m, fields, ps, LeafT(kind), name, before, true) == Ok((true, LeafO(x)));
  }

  lemma TwoLeaves(c: Schema, m: Mode, mv: Moves, fields: seq<Field>, left: seq<Field>, x: string, y: string, z: string)
    requires SchemaOk(c) && ModeOk(m) && !m.strict && |c.structs| > 0 && |c.structs[0].members| == 2 && |fields| == 1
    requires fields[0].value.LeafV? && y != z
    requires forall k | 0 <= k < 2 :: c.structs[0].members[k].ty == LeafT(0)
    requires var f := c.structs[0].members;
      && BindNamed(c, m, fields, 2, LeafT(0), f[0].name, LeafO(""), true) == Ok((true, LeafO(x)))
      && BindNamed(c, m, fields, 2, LeafT(0), f[1].name, LeafO(""), true) == Ok((true, LeafO(y)))
      && MoveNamed(c, m, mv, 0, fields, 2, LeafT(0), f[0].name, LeafO(""), true) == (Ok((true, LeafO(x))), left)
      && MoveNamed(c, m, mv, 0, left, 2, LeafT(0), f[1].name, LeafO(""), true).0 == Ok((true, LeafO(z)))
    ensures MoveStruct(c, m, mv, Depth(fields, |fields|), fields, 0, StructO([])).0 != BindStruct(c, m, fields, 0, StructO([]))
  {
    hide BindNamed;
    hide MoveNamed;
    var none: seq<Out> := [];
    assert none + [LeafO(x)] == [LeafO(x)];
    assert [LeafO(x)] + [LeafO(y)] == [LeafO(x), LeafO(y)] && [LeafO(x)] + [LeafO(z)] == [LeafO(x), LeafO(z)];
    assert c.structs[0].members[0].ty == LeafT(0) && c.structs[0].members[1].ty == LeafT(0);
    assert BindMembers(c, m, fields, 0, 0, StructO([])) == Ok(none);
    assert MoveMembers(c, m, mv, 0, fields, 0, 0, StructO([])) == (Ok([]), fields);
    assert BindMembers(c, m, fields, 0, 1, StructO([])) == Ok([LeafO(x)]);
    assert MoveMembers(c, m, mv, 0, fields, 0, 1, StructO([])) == (Ok([LeafO(x)]), left);
    assert BindMembers(c, m, fields, 0, 2, StructO([])) == Ok([LeafO(x), LeafO(y)]);
    assert MoveMembers(c, m, mv, 0, fields, 0, 2, StructO([])).0 == Ok([LeafO(x), LeafO(z)]);
    assert [LeafO(x), LeafO(y)][1] != [LeafO(x), LeafO(z)][1];
  }

  // ---------------------------------------------------------------- what clashing names lose

  /** Entry p holds the text x, or what a move left of it. */
  ghost predicate TextOrHusk(fields: seq<Field>, left: seq<Field>, p: nat, x: string, husk: string) {
    SameNames(fields, left) && p < |left| && (left[p].value == LeafV(Text(x)) || left[p].value == LeafV(Text(husk)))
  }

  ghost predicate IsHusk(left: seq<Field>, p: nat, husk: string) {
    p < |left| && left[p].value == LeafV(Text(husk))
  }

  /** Whatever else is bound, a text stays a text or turns into the husk, and the husk stays. */
  ghost predicate Kept(fields: seq<Field>, left: seq<Field>, left': seq<Field>, p: nat, x: string, husk: string) {
    TextOrHusk(fields, left', p, x, husk) && (IsHusk(left, p, husk) ==> IsHusk(left', p, husk))
  }

  lemma OneKeepsText(c: Schema, m: Mode, mv: Moves, d: nat, fields: seq<Field>, left: seq<Field>, q: nat, ty: Type, name: string, before: Out, p: nat, x: string)
    requires SchemaOk(c) && ModeOk(m) && TypeOk(c, ty) && (ty.LeafT? || ty.StructT?) && q < |left|
    requires TextOrHusk(fields, left, p, x, mv.husk)
    ensures Kept(fields, left, MoveOne(c, m, mv, d, left, q, ty, name, before).1, p, x, mv.husk)
  {
    hide MoveStruct;
  }

  lemma {:induction false} ElemsKeepText(c: Schema, m: Mode, mv: Moves, d: nat, fields: seq<Field>, left: seq<Field>, ps: seq<nat>, k: nat, elem: Type, name: string, p: nat, x: string)
    requires SchemaOk(c) && ModeOk(m) && TypeOk(c, elem) && (elem.LeafT? || elem.StructT?)
    requires k <= |ps| && (forall i | 0 <= i < |ps| :: ps[i] < |left|)
    requires TextOrHusk(fields, left, p, x, mv.husk)
    ensures Kept(fields, left, MoveElems(c, m, mv, d, left, ps, k, elem, name).1, p, x, mv.husk)
    decreases k
  {
    hide MoveOne;
    if k > 0 {
      ElemsKeepText(c, m, mv, d, fields, left, ps, k - 1, elem, name, p, x);
      var r := MoveElems(c, m, mv, d, left, ps, k - 1, elem, name);
      OneKeepsText(c, m, mv, d, fields, r.1, ps[k - 1], elem, name, Blank(c, elem), p, x);
    }
  }

  lemma {:induction false} NamedKeepsText(c: Schema, m: Mode, mv: Moves, d: nat, fields: seq<Field>, left: seq<Field>, count: nat, ty: Type, name: string, before: Out, required: bool, p: nat, x: string)
    requires SchemaOk(c) && ModeOk(m) && TypeOk(c, ty)
    requires TextOrHusk(fields, left, p, x, mv.husk)
    ensures Kept(fields, left, MoveNamed(c, m, mv, d, left, count, ty, name, before, required).1, p, x, mv.husk)
    decreases ty
  {
    hide MoveOne;
    hide MoveElems;
    var ps := Scan(left, |left|, name);
    match ty
    case OptionalT(inner) => NamedKeepsText(c, m, mv, d, fields, left, count, inner, name, Blank(c, inner), false, p, x);
    case VectorT(elem) => ElemsKeepText(c, m, mv, d, fields, left, ps, |ps|, elem, name, p, x);
    case _ => if |ps| == 1 { OneKeepsText(c, m, mv, d, fields, left, ps[0], ty, name, before, p, x); }
  }

  /** A required leaf whose only entry is p is converted from it, and moved out of it if its type moves. */
  lemma LeafFrom(c: Schema, m: Mode, mv: Moves, d: nat, fields: seq<Field>, count: nat, kind: nat, name: string, before: Out, p: nat, x: string)
    requires SchemaOk(c) && ModeOk(m) && p < |fields| && Scan(fields, |fields|, name) == [p] && fields[p].value == LeafV(Text(x))
    ensures var v := c.convert(kind, Text(x));
      && BindNamed(c, m, fields, count, LeafT(kind), name, before, true) == (if v.Some? then Ok((true, LeafO(v.value))) else Err(BadLeaf(name)))
      && MoveNamed(c, m, mv, d, fields, count, LeafT(kind), name, before, true).0 == (if v.Some? then Ok((true, LeafO(v.value))) else Err(BadLeaf(name)))
      && (v.Some? && mv.moved(kind) ==> IsHusk(MoveNamed(c, m, mv, d, fields, count, LeafT(kind), name, before, true).1, p, mv.husk))
  {
    var ps := Scan(fields, |fields|, name);
    var v := c.convert(kind, Text(x));
    assert BindOne(c, m, fields, p, LeafT(kind), name, before) == if v.Some? then Ok(LeafO(v.value)) else Err(BadLeaf(name));
    assert BindSingle(c, m, fields, ps, LeafT(kind), name, before, true) == if v.Some? then Ok((true, LeafO(v.value))) else Err(BadLeaf(name));
    assert MoveOne(c, m, mv, d, fields, p, LeafT(kind), name, before).0 == if v.Some? then Ok(LeafO(v.value)) else Err(BadLeaf(name));
  }

  /** Binding a required leaf succeeds only with exactly one entry. */
  lemma LeafIsSingle(c: Schema, m: Mode, fields: seq<Field>, count: nat, kind: nat, name: string, before: Out, p: nat)
    requires SchemaOk(c) && ModeOk(m) && p < |fields| && IEquals(fields[p].name, name)
    requires BindNamed(c, m, fields, count, LeafT(kind), name, before, true).Ok?
    ensures Scan(fields, |fields|, name) == [p]
  {
    ScanFindsAll(fields, |fields|, name, p);
    assert |Scan(fields, |fields|, name)| == 1;
  }

  /** Earlier members of a successful binding were bound successfully, to the values they have in the end. */
  lemma {:induction false} MemberBound(c: Schema, m: Mode, fields: seq<Field>, id: nat, n: nat, k: nat, before: Out)
    requires SchemaOk(c) && ModeOk(m) && id < |c.structs| && k < n <= |c.structs[id].members|
    requires BindMembers(c, m, fields, id, n, before).Ok?
    ensures var f := c.structs[id].members[k];
      var r := BindNamed(c, m, fields, |c.structs[id].members|, f.ty, f.name, MemberOf(before, k, Blank(c, f.ty)), true);
      r.Ok? && |BindMembers(c, m, fields, id, n, before).value| == n && BindMembers(c, m, fields, id, n, before).value[k] == r.value.1
    decreases n
  {
    hide BindNamed;
    MembersCount(c, m, fields, id, n, before);
    MembersCount(c, m, fields, id, n - 1, before);
    if k < n - 1 { MemberBound(c, m, fields, id, n - 1, k, before); }
  }

  lemma {:induction false} MembersKeepText(c: Schema, m: Mode, mv: Moves, d: nat, fields: seq<Field>, id: nat, n: nat, j: nat, before: Out, p: nat, x: string)
    requires SchemaOk(c) && ModeOk(m) && id < |c.structs| && n <= |c.structs[id].members| && j < |c.structs[id].members|
    requires var f := c.structs[id].members[j];
      f.ty.LeafT? && mv.moved(f.ty.kind) && p < |fields| && Scan(fields, |fields|, f.name) == [p] && fields[p].value == LeafV(Text(x))
    requires MoveMembers(c, m, mv, d, fields, id, n, before).0.Ok?
    ensures var left := MoveMembers(c, m, mv, d, fields, id, n, before).1;
      TextOrHusk(fields, left, p, x, mv.husk) && (j < n ==> IsHusk(left, p, mv.husk))
    decreases n
  {
    hide MoveNamed;
    hide IEquals;
    if n > 0 {
      var f := c.structs[id].members[n - 1];
      var count, start := |c.structs[id].members|, MemberOf(before, n - 1, Blank(c, f.ty));
      MembersKeepText(c, m, mv, d, fields, id, n - 1, j, before, p, x);
      var left := MoveMembers(c, m, mv, d, fields, id, n - 1, before).1;
      NamedKeepsText(c, m, mv, d, fields, left, count, f.ty, f.name, start, true, p, x);
      if n - 1 == j {
        ScanByNames(fields, left, |fields|, f.name);
        LeafFrom(c, m, mv, d, left, count, f.ty.kind, f.name, start, p, left[p].value.leaf.s);
      }
    }
  }

  lemma {:induction false} MemberMoved(c: Schema, m: Mode, mv: Moves, d: nat, fields: seq<Field>, id: nat, n: nat, k: nat, before: Out)
    requires SchemaOk(c) && ModeOk(m) && id < |c.structs| && k < n <= |c.structs[id].members|
    requires MoveMembers(c, m, mv, d, fields, id, n, before).0.Ok?
    ensures var f := c.structs[id].members[k];
      var before' := MoveMembers(c, m, mv, d, fields, id, k, before);
      var r := MoveNamed(c, m, mv, d, before'.1, |c.structs[id].members|, f.ty, f.name, MemberOf(before, k, Blank(c, f.ty)), true);
      var outs := MoveMembers(c, m, mv, d, fields, id, n, before).0.value;
      before'.0.Ok? && r.0.Ok? && |outs| == n && outs[k] == r.0.value.1
    decreases n
  {
    hide MoveNamed;
    MovedCount(c, m, mv, d, fields, id, n, before);
    MovedCount(c, m, mv, d, fields, id, n - 1, before);
    if k < n - 1 { MemberMoved(c, m, mv, d, fields, id, n - 1, k, before); }
  }

  lemma {:induction false} MovedCount(c: Schema, m: Mode, mv: Moves, d: nat, fields: seq<Field>, id: nat, n: nat, before: Out)
    requires SchemaOk(c) && ModeOk(m) && id < |c.structs| && n <= |c.structs[id].members|
    requires MoveMembers(c, m, mv, d, fields, id, n, before).0.Ok?
    ensures |MoveMembers(c, m, mv, d, fields, id, n, before).0.value| == n
    decreases n
  {
    hide MoveNamed;
    if n > 0 { MovedCount(c, m, mv, d, fields, id, n - 1, before); }
  }

  /**
   * For every schema: two leaf members of a struct whose names match the same keys, the first of a type
   * that moves. If the copying overload binds the list and the shared entry is a text that the second
   * member converts differently from a moved-from text, the moving overload's outcome is another one.
   */
  lemma ClashingNamesLoseText(c: Schema, m: Mode, mv: Moves, d: nat, fields: seq<Field>, id: nat, before: Out, j: nat, k: nat, p: nat, x: string)
    requires SchemaOk(c) && ModeOk(m) && id < |c.structs| && j < k < |c.structs[id].members|
    requires var f, g := c.structs[id].members[j], c.structs[id].members[k];
      && IEquals(f.name, g.name) && f.ty.LeafT? && g.ty.LeafT? && mv.moved(f.ty.kind)
      && p < |fields| && IEquals(fields[p].name, f.name) && fields[p].value == LeafV(Text(x))
      && c.convert(g.ty.kind, Text(mv.husk)) != c.convert(g.ty.kind, Text(x))
    requires BindStruct(c, m, fields, id, before).Ok?
    ensures MoveStruct(c, m, mv, d, fields, id, before).0 != BindStruct(c, m, fields, id, before)
  {
    var members := c.structs[id].members;
    var n, f, g := |members|, members[j], members[k];
    IEqualsTransitive(fields[p].name, f.name, g.name);
    MemberBound(c, m, fields, id, n, j, before);
    MemberBound(c, m, fields, id, n, k, before);
    LeafIsSingle(c, m, fields, n, f.ty.kind, f.name, MemberOf(before, j, Blank(c, f.ty)), p);
    LeafIsSingle(c, m, fields, n, g.ty.kind, g.name, MemberOf(before, k, Blank(c, g.ty)), p);
    LeafFrom(c, m, mv, d, fields, n, g.ty.kind, g.name, MemberOf(before, k, Blank(c, g.ty)), p, x);
    if MoveMembers(c, m, mv, d, fields, id, n, before).0.Ok? {
      MemberMoved(c, m, mv, d, fields, id, n, k, before);
      MembersKeepText(c, m, mv, d, fields, id, k, j, before, p, x);
      var left := MoveMembers(c, m, mv, d, fields, id, k, before).1;
      ScanByNames(fields, left, |fields|, g.name);
      LeafFrom(c, m, mv, d, left, n, g.ty.kind, g.name, MemberOf(before, k, Blank(c, g.ty)), p, mv.husk);
    }
    OutcomesOf(c, m, mv, d, fields, id, before);
  }

  /** Both overloads wrap the members' outcome the same way. */
  lemma OutcomesOf(c: Schema, m: Mode, mv: Moves, d: nat, fields: seq<Field>, id: nat, before: Out)
    requires SchemaOk(c) && ModeOk(m) && id < |c.structs| && BindStruct(c, m, fields, id, before).Ok?
    ensures var n := |c.structs[id].members|;
      var copied, moved := BindMembers(c, m, fields, id, n, before), MoveMembers(c, m, mv, d, fields, id, n, before).0;
      copied.Ok? && (MoveStruct(c, m, mv, d, fields, id, before).0 == BindStruct(c, m, fields, id, before) <==> moved == copied)
  {
    hide BindMembers;
    hide MoveMembers;
  }
}
