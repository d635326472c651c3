/** timeseriesSignature of accumulator.go: the key under which a series is stored. */
module Signature {
  import opened Sequences
  import opened Attributes
  import opened Metrics
  import Resource

  const STAR: char := '*'

  /** Byte-wise string order, as in sort.Strings. */
  predicate LexLeq(a: string, b: string) {
    a == [] || (b != [] && (a[0] < b[0] || (a[0] == b[0] && LexLeq(a[1..], b[1..]))))
  }

  lemma {:induction false} LexTotal(a: string, b: string)
    ensures LexLeq(a, b) || LexLeq(b, a)
  {
    if a != [] && b != [] && a[0] == b[0] { LexTotal(a[1..], b[1..]); }
  }

  lemma {:induction false} LexAntisymmetric(a: string, b: string)
    requires LexLeq(a, b) && LexLeq(b, a)
    ensures a == b
  {
    if a != [] && b != [] {
      LexAntisymmetric(a[1..], b[1..]);
      assert a == [a[0]] + a[1..] && b == [b[0]] + b[1..];
    }
  }

  lemma {:induction false} LexTransitive(a: string, b: string, c: string)
    requires LexLeq(a, b) && LexLeq(b, c)
    ensures LexLeq(a, c)
  {
    if a != [] && a[0] == b[0] == c[0] { LexTransitive(a[1..], b[1..], c[1..]); }
  }

  lemma LexIsTotalOrder()
    ensures TotalOrder(LexLeq)
  {
    forall a, b ensures LexLeq(a, b) || LexLeq(b, a) { LexTotal(a, b); }
    forall a, b | LexLeq(a, b) && LexLeq(b, a) ensures a == b { LexAntisymmetric(a, b); }
    forall a, b, c | LexLeq(a, b) && LexLeq(b, c) ensures LexLeq(a, c) { LexTransitive(a, b, c); }
  }

  function Rendered(attrs: Attrs): seq<string> {
    if attrs == [] then [] else [attrs[0].key + [STAR] + attrs[0].value.text] + Rendered(attrs[1..])
  }

  /** strings.Join with the separator '*'. */
  function Join(parts: seq<string>): string {
    if parts == [] then "" else if |parts| == 1 then parts[0] else parts[0] + [STAR] + Join(parts[1..])
  }

  function LabelSuffix(key: string, value: Option<string>): string {
    if value.Some? then [STAR] + key + [STAR] + value.value else ""
  }

  /** What identifies a time series. */
  datatype Series = Series(scope: string, kind: Kind, name: string, attrs: Attrs, resource: Attrs)

  function TimeseriesSignature(x: Series): string {
    TypeName(x.kind) + [STAR] + x.scope + [STAR] + x.name
    + [STAR] + Join(SortBy(LexLeq, Rendered(x.attrs)))
    + LabelSuffix(Resource.JOB_LABEL, Resource.ExtractJob(x.resource))
    + LabelSuffix(Resource.INSTANCE_LABEL, Resource.ExtractInstance(x.resource))
  }

  // ---------- The signature does not depend on attribute order ----------

  lemma {:induction false} RenderedConcat(a: Attrs, b: Attrs)
    ensures Rendered(a + b) == Rendered(a) + Rendered(b)
  {
    if a == [] {
      assert a + b == b;
    } else {
      assert (a + b)[1..] == a[1..] + b;
      RenderedConcat(a[1..], b);
    }
  }

  lemma RenderedWithout(a: Attrs, j: nat)
    requires j < |a|
    ensures multiset(Rendered(a)) == multiset(Rendered(a[..j] + a[j + 1..])) + multiset(Rendered([a[j]]))
  {
    hide Rendered;
    var l, one, r := a[..j], [a[j]], a[j + 1..];
    assert a == l + (one + r);
    RenderedConcat(l, one + r);
    RenderedConcat(one, r);
    RenderedConcat(l, r);
    MultisetMiddle(Rendered(l), Rendered(one), Rendered(r));
  }

  lemma {:induction false} RenderedPermutation(a: Attrs, b: Attrs)
    requires multiset(a) == multiset(b)
    ensures multiset(Rendered(a)) == multiset(Rendered(b))
  {
    hide Rendered;
    SameLength(a, b);
    if a != [] {
      var j := PermutationStep(a, b);
      RenderedPermutation(a[1..], b[..j] + b[j + 1..]);
      RenderedWithout(b, j);
      RenderedWithout(a, 0);
      assert a[..0] + a[0 + 1..] == a[1..];
    } else {
      assert b == [];
    }
  }

  /** Reordering a point's attributes does not change its signature. */
  lemma SignatureIgnoresOrder(x: Series, b: Attrs)
    requires multiset(x.attrs) == multiset(b)
    ensures TimeseriesSignature(x) == TimeseriesSignature(x.(attrs := b))
  {
    var a := x.attrs;
    LexIsTotalOrder();
    RenderedPermutation(a, b);
    SortBySpec(LexLeq, Rendered(a));
    SortBySpec(LexLeq, Rendered(b));
    SortedUnique(LexLeq, SortBy(LexLeq, Rendered(a)), SortBy(LexLeq, Rendered(b)));
  }

  // ---------- The signature determines the series ----------

  function FirstField(s: string): string {
    if s == [] || s[0] == STAR then [] else [s[0]] + FirstField(s[1..])
  }

  lemma {:induction false} FirstFieldOfConcat(a: string, b: string)
    requires STAR !in a && b != [] && b[0] == STAR
    ensures FirstField(a + b) == a
  {
    if a == [] {
      assert a + b == b;
    } else {
      assert (a + b)[1..] == a[1..] + b;
      FirstFieldOfConcat(a[1..], b);
    }
  }

  /** The key starts with the metric type, whatever the other parts contain. */
  lemma SignatureStartsWithType(x: Series)
    ensures FirstField(TimeseriesSignature(x)) == TypeName(x.kind)
  {
    hide FirstField, Join, LabelSuffix;
    var rest := [STAR] + x.scope + [STAR] + x.name + [STAR] + Join(SortBy(LexLeq, Rendered(x.attrs)))
      + LabelSuffix(Resource.JOB_LABEL, Resource.ExtractJob(x.resource))
      + LabelSuffix(Resource.INSTANCE_LABEL, Resource.ExtractInstance(x.resource));
    assert TimeseriesSignature(x) == TypeName(x.kind) + rest;
    FirstFieldOfConcat(TypeName(x.kind), rest);
  }

  /** The '*'-separated fields of a string. */
  function Split(s: string): (r: seq<string>)
    ensures |r| >= 1
  {
    if s == [] then [""]
    else
      var r := Split(s[1..]);
      if s[0] == STAR then [""] + r else [[s[0]] + r[0]] + r[1..]
  }

  lemma {:induction false} SplitAtStar(a: string, b: string)
    ensures Split(a + [STAR] + b) == Split(a) + Split(b)
  {
    var s := a + [STAR] + b;
    if a == [] {
      assert s[1..] == b;
    } else {
      assert s[1..] == a[1..] + [STAR] + b;
      SplitAtStar(a[1..], b);
    }
  }

  lemma {:induction false} SplitStarFree(a: string)
    requires STAR !in a
    ensures Split(a) == [a]
  {
    if a != [] {
      SplitStarFree(a[1..]);
      assert a == [a[0]] + a[1..] && Split(a[1..])[1..] == [];
    }
  }

  /** The fields of "k*v" strings, in order. */
  function PairFields(parts: seq<string>): seq<string> {
    if parts == [] then [] else Split(parts[0]) + PairFields(parts[1..])
  }

  /** The fields of Join(parts): the empty string splits into one empty field. */
  function JoinedFields(parts: seq<string>): seq<string> {
    if parts == [] then [""] else PairFields(parts)
  }

  lemma {:induction false} SplitJoin(parts: seq<string>)
    ensures Split(Join(parts)) == JoinedFields(parts)
  {
    if |parts| == 1 {
      assert PairFields(parts[1..]) == [];
    } else if |parts| > 1 {
      SplitAtStar(parts[0], Join(parts[1..]));
      SplitJoin(parts[1..]);
    }
  }

  function LabelFields(key: string, value: Option<string>): seq<string> {
    if value.Some? then [key, value.value] else []
  }

  function AttrFields(attrs: Attrs): seq<string> {
    JoinedFields(SortBy(LexLeq, Rendered(attrs)))
  }

  function IdentityFields(resource: Attrs): seq<string> {
    LabelFields(Resource.JOB_LABEL, Resource.ExtractJob(resource))
    + LabelFields(Resource.INSTANCE_LABEL, Resource.ExtractInstance(resource))
  }

  function Header(x: Series): seq<string> {
    [TypeName(x.kind), x.scope, x.name]
  }

  /** What a signature spells out. */
  function Fields(x: Series): seq<string> {
    Header(x) + AttrFields(x.attrs) + IdentityFields(x.resource)
  }

  ghost predicate StarFreeAttrs(attrs: Attrs) {
    forall kv | kv in attrs :: STAR !in kv.key && STAR !in kv.value.text
  }

  ghost predicate StarFree(x: Series) {
    && STAR !in x.scope && STAR !in x.name && StarFreeAttrs(x.attrs)
    && STAR !in Resource.OrEmpty(Resource.ExtractJob(x.resource))
    && STAR !in Resource.OrEmpty(Resource.ExtractInstance(x.resource))
  }

  lemma SplitLabelSuffix(s: string, key: string, value: Option<string>)
    requires STAR !in key && STAR !in Resource.OrEmpty(value)
    ensures Split(s + LabelSuffix(key, value)) == Split(s) + LabelFields(key, value)
  {
    if value.Some? {
      assert s + LabelSuffix(key, value) == (s + [STAR] + key) + [STAR] + value.value;
      SplitAtStar(s + [STAR] + key, value.value);
      SplitAtStar(s, key);
      SplitStarFree(key);
      SplitStarFree(value.value);
    } else {
      assert s + LabelSuffix(key, value) == s;
    }
  }

  lemma SplitHead(t: string, scope: string, name: string, rest: string)
    requires STAR !in t && STAR !in scope && STAR !in name
    ensures Split(t + [STAR] + scope + [STAR] + name + [STAR] + rest) == [t, scope, name] + Split(rest)
  {
    SplitAtStar(t + [STAR] + scope + [STAR] + name, rest);
    SplitAtStar(t + [STAR] + scope, name);
    SplitAtStar(t, scope);
    SplitStarFree(t);
    SplitStarFree(scope);
    SplitStarFree(name);
  }

  lemma SplitSignature(x: Series)
    requires StarFree(x)
    ensures Split(TimeseriesSignature(x)) == Fields(x)
  {
    hide Find, Join, Split, Resource.ExtractJob, Resource.ExtractInstance;
    var rest := Join(SortBy(LexLeq, Rendered(x.attrs)));
    var job, inst := Resource.ExtractJob(x.resource), Resource.ExtractInstance(x.resource);
    var head := TypeName(x.kind) + [STAR] + x.scope + [STAR] + x.name + [STAR] + rest;
    SplitHead(TypeName(x.kind), x.scope, x.name, rest);
    SplitJoin(SortBy(LexLeq, Rendered(x.attrs)));
    SplitLabelSuffix(head, Resource.JOB_LABEL, job);
    SplitLabelSuffix(head + LabelSuffix(Resource.JOB_LABEL, job), Resource.INSTANCE_LABEL, inst);
  }

  lemma {:induction false} JoinSplit(s: string)
    ensures Join(Split(s)) == s
  {
    if s != [] {
      var r := Split(s[1..]);
      JoinSplit(s[1..]);
      if s[0] == STAR {
        assert ([""] + r)[1..] == r;
      } else if |r| > 1 {
        assert ([[s[0]] + r[0]] + r[1..])[1..] == r[1..];
      }
    }
  }

  /** For '*'-free parts, two series share a signature exactly when they spell out the same fields. */
  lemma SameSignatureSameFields(x: Series, y: Series)
    requires StarFree(x) && StarFree(y)
    ensures TimeseriesSignature(x) == TimeseriesSignature(y) <==> Fields(x) == Fields(y)
  {
    SplitSignature(x);
    SplitSignature(y);
    JoinSplit(TimeseriesSignature(x));
    JoinSplit(TimeseriesSignature(y));
  }

  ghost predicate IsPair(part: string) {
    |Split(part)| == 2
  }

  lemma {:induction false} RenderedPairs(attrs: Attrs)
    requires StarFreeAttrs(attrs)
    ensures forall r | r in Rendered(attrs) :: IsPair(r)
  {
    if attrs != [] {
      SplitAtStar(attrs[0].key, attrs[0].value.text);
      SplitStarFree(attrs[0].key);
      SplitStarFree(attrs[0].value.text);
      RenderedPairs(attrs[1..]);
    }
  }

  lemma SortedPairs(attrs: Attrs)
    requires StarFreeAttrs(attrs)
    ensures forall i | 0 <= i < |SortBy(LexLeq, Rendered(attrs))| :: IsPair(SortBy(LexLeq, Rendered(attrs))[i])
    ensures multiset(SortBy(LexLeq, Rendered(attrs))) == multiset(Rendered(attrs))
  {
    RenderedPairs(attrs);
    LexIsTotalOrder();
    SortBySpec(LexLeq, Rendered(attrs));
    var parts := SortBy(LexLeq, Rendered(attrs));
    forall i | 0 <= i < |parts| ensures IsPair(parts[i]) {
      assert parts[i] in multiset(Rendered(attrs));
    }
  }

  lemma {:induction false} PairFieldsAt(parts: seq<string>)
    requires forall i | 0 <= i < |parts| :: IsPair(parts[i])
    ensures |PairFields(parts)| == 2 * |parts|
    ensures forall i {:trigger parts[i]} | 0 <= i < |parts| :: PairFields(parts)[2 * i..2 * i + 2] == Split(parts[i])
  {
    if parts != [] {
      PairFieldsAt(parts[1..]);
      var rest := PairFields(parts[1..]);
      forall i {:trigger parts[i]} | 0 <= i < |parts|
        ensures PairFields(parts)[2 * i..2 * i + 2] == Split(parts[i])
      {
        if i > 0 {
          assert parts[1..][i - 1] == parts[i];
          assert PairFields(parts)[2 * i..2 * i + 2] == rest[2 * i - 2..2 * i];
        }
      }
    }
  }

  lemma {:induction false} PairFieldsInjective(p: seq<string>, q: seq<string>)
    requires forall i | 0 <= i < |p| :: IsPair(p[i])
    requires forall i | 0 <= i < |q| :: IsPair(q[i])
    requires PairFields(p) == PairFields(q)
    ensures p == q
  {
    PairFieldsAt(p);
    PairFieldsAt(q);
    forall i | 0 <= i < |p| ensures p[i] == q[i] {
      JoinSplit(p[i]);
      JoinSplit(q[i]);
    }
  }

  lemma IdentityFieldsInjective(r: Attrs, r': Attrs)
    requires IdentityFields(r) == IdentityFields(r')
    ensures Resource.ExtractJob(r) == Resource.ExtractJob(r')
    ensures Resource.ExtractInstance(r) == Resource.ExtractInstance(r')
  {
    var f, f' := IdentityFields(r), IdentityFields(r');
    assert |f| == |f'| && Resource.JOB_LABEL[0] != Resource.INSTANCE_LABEL[0];
    if |f| == 2 {
      assert f[0] == f'[0] && f[1] == f'[1];
    } else if |f| == 4 {
      assert f[1] == f'[1] && f[3] == f'[3];
    }
  }

  lemma RenderedDeterminesFields(attrs: Attrs, attrs': Attrs)
    requires multiset(Rendered(attrs)) == multiset(Rendered(attrs'))
    ensures AttrFields(attrs) == AttrFields(attrs')
  {
    LexIsTotalOrder();
    SortBySpec(LexLeq, Rendered(attrs));
    SortBySpec(LexLeq, Rendered(attrs'));
    SortedUnique(LexLeq, SortBy(LexLeq, Rendered(attrs)), SortBy(LexLeq, Rendered(attrs')));
  }

  /** The empty list still joins to one field, so the number of fields is odd exactly then. */
  lemma FieldsDetermineRendered(attrs: Attrs, attrs': Attrs)
    requires StarFreeAttrs(attrs)
    requires StarFreeAttrs(attrs')
    requires AttrFields(attrs) == AttrFields(attrs')
    ensures multiset(Rendered(attrs)) == multiset(Rendered(attrs'))
  {
    SortedPairs(attrs);
    SortedPairs(attrs');
    var p, p' := SortBy(LexLeq, Rendered(attrs)), SortBy(LexLeq, Rendered(attrs'));
    PairFieldsAt(p);
    PairFieldsAt(p');
    assert |AttrFields(attrs)| == |AttrFields(attrs')|;
    PairFieldsInjective(p, p');
  }

  /** Same type, scope, name, rendered attributes, job and instance. */
  ghost predicate SameSeries(x: Series, y: Series) {
    && Header(x) == Header(y) && multiset(Rendered(x.attrs)) == multiset(Rendered(y.attrs))
    && Resource.ExtractJob(x.resource) == Resource.ExtractJob(y.resource)
    && Resource.ExtractInstance(x.resource) == Resource.ExtractInstance(y.resource)
  }

  /** Both resources have a service name or neither has, and likewise for the instance id. */
  predicate SamePresence(r: Attrs, r': Attrs) {
    && Resource.ExtractJob(r).Some? == Resource.ExtractJob(r').Some?
    && Resource.ExtractInstance(r).Some? == Resource.ExtractInstance(r').Some?
  }

  /** Equal field lists agree on each part, once the identity fields are equally many. */
  lemma SplitFields(x: Series, y: Series)
    requires Fields(x) == Fields(y) && |IdentityFields(x.resource)| == |IdentityFields(y.resource)|
    ensures Header(x) == Header(y) && AttrFields(x.attrs) == AttrFields(y.attrs)
    ensures IdentityFields(x.resource) == IdentityFields(y.resource)
  {
    hide AttrFields, IdentityFields;
    var f, f', n := Fields(x), Fields(y), |AttrFields(x.attrs)|;
    assert |f| == |f'| && n == |AttrFields(y.attrs)|;
    assert Header(x) == f[..3] && Header(y) == f'[..3];
    assert AttrFields(x.attrs) == f[3..3 + n] && AttrFields(y.attrs) == f'[3..3 + n];
    assert IdentityFields(x.resource) == f[3 + n..] && IdentityFields(y.resource) == f'[3 + n..];
  }

  /** Injectivity, with its exact limit: for '*'-free parts, two series agree on type, scope, name, rendered attributes,
      job and instance exactly when they share a signature and their resources have the same of the two identity
      attributes. */
  lemma SignatureInjective(x: Series, y: Series)
    requires StarFree(x) && StarFree(y)
    ensures SameSeries(x, y) <==>
      TimeseriesSignature(x) == TimeseriesSignature(y) && SamePresence(x.resource, y.resource)
  {
    hide AttrFields, Rendered, Resource.ExtractJob, Resource.ExtractInstance, TimeseriesSignature, StarFreeAttrs;
    SameSignatureSameFields(x, y);
    if SameSeries(x, y) {
      RenderedDeterminesFields(x.attrs, y.attrs);
    } else if Fields(x) == Fields(y) && SamePresence(x.resource, y.resource) {
      SplitFields(x, y);
      FieldsDetermineRendered(x.attrs, y.attrs);
      IdentityFieldsInjective(x.resource, y.resource);
    }
  }

  // ---------- Without "job" and "instance" point attributes there are no collisions ----------

  ghost predicate NoIdentityKeys(attrs: Attrs) {
    forall kv | kv in attrs :: kv.key != Resource.JOB_LABEL && kv.key != Resource.INSTANCE_LABEL
  }

  ghost predicate PlainPair(part: string) {
    IsPair(part) && Split(part)[0] != Resource.JOB_LABEL && Split(part)[0] != Resource.INSTANCE_LABEL
  }

  lemma {:induction false} RenderedPlain(attrs: Attrs)
    requires StarFreeAttrs(attrs) && NoIdentityKeys(attrs)
    ensures forall r | r in Rendered(attrs) :: PlainPair(r)
  {
    if attrs != [] {
      SplitAtStar(attrs[0].key, attrs[0].value.text);
      SplitStarFree(attrs[0].key);
      SplitStarFree(attrs[0].value.text);
      RenderedPlain(attrs[1..]);
    }
  }

  lemma PlainKeyAt(parts: seq<string>, n: nat)
    requires n < |parts| && (forall i | 0 <= i < |parts| :: IsPair(parts[i])) && PlainPair(parts[n])
    ensures |PairFields(parts)| == 2 * |parts|
    ensures PairFields(parts)[2 * n] != Resource.JOB_LABEL && PairFields(parts)[2 * n] != Resource.INSTANCE_LABEL
  {
    PairFieldsAt(parts);
    assert PairFields(parts)[2 * n] == PairFields(parts)[2 * n..2 * n + 2][0] == Split(parts[n])[0];
  }

  lemma SortedPlain(attrs: Attrs)
    requires StarFreeAttrs(attrs) && NoIdentityKeys(attrs)
    ensures forall i | 0 <= i < |SortBy(LexLeq, Rendered(attrs))| :: PlainPair(SortBy(LexLeq, Rendered(attrs))[i])
  {
    hide Rendered, PlainPair, StarFreeAttrs, NoIdentityKeys;
    RenderedPlain(attrs);
    SortedPairs(attrs);
    var parts := SortBy(LexLeq, Rendered(attrs));
    forall i | 0 <= i < |parts| ensures PlainPair(parts[i]) {
      assert parts[i] in multiset(Rendered(attrs));
    }
  }

  /** The attribute fields have no identity label at a key position. */
  lemma KeysArePlain(attrs: Attrs, n: nat)
    requires StarFreeAttrs(attrs) && NoIdentityKeys(attrs)
    ensures |AttrFields(attrs)| % 2 == 1 ==> |AttrFields(attrs)| == 1
    ensures |AttrFields(attrs)| % 2 == 0 && 2 * n < |AttrFields(attrs)| ==>
      AttrFields(attrs)[2 * n] != Resource.JOB_LABEL && AttrFields(attrs)[2 * n] != Resource.INSTANCE_LABEL
  {
    SortedPairs(attrs);
    SortedPlain(attrs);
    PlainFields(SortBy(LexLeq, Rendered(attrs)), n);
  }

  lemma PlainFields(parts: seq<string>, n: nat)
    requires forall i | 0 <= i < |parts| :: IsPair(parts[i])
    requires forall i | 0 <= i < |parts| :: PlainPair(parts[i])
    ensures var f := JoinedFields(parts);
      && (|f| % 2 == 1 ==> |f| == 1)
      && (|f| % 2 == 0 && 2 * n < |f| ==> f[2 * n] != Resource.JOB_LABEL && f[2 * n] != Resource.INSTANCE_LABEL)
  {
    hide PlainPair, IsPair, PairFields;
    PairFieldsAt(parts);
    if n < |parts| { PlainKeyAt(parts, n); }
  }

  lemma IdentityFieldsStart(r: Attrs)
    ensures var f := IdentityFields(r);
      |f| % 2 == 0 && (f != [] ==> f[0] == Resource.JOB_LABEL || f[0] == Resource.INSTANCE_LABEL)
  {}

  lemma Overhang(h: seq<string>, a: seq<string>, i: seq<string>, h': seq<string>, a': seq<string>, i': seq<string>)
    requires |h| == |h'| && h + a + i == h' + a' + i' && |a'| < |a| && i' != []
    ensures a[|a'|] == i'[0]
  {
    assert (h + a + i)[|h| + |a'|] == a[|a'|] && (h' + a' + i')[|h| + |a'|] == i'[0];
  }

  /** The identity fields start at the first identity label in a key position, so there are equally many. */
  lemma EquallyManyIdentityFields(x: Series, y: Series)
    requires StarFree(x) && StarFree(y) && NoIdentityKeys(x.attrs) && Fields(x) == Fields(y)
    requires NoIdentityKeys(y.attrs)
    ensures |IdentityFields(x.resource)| >= |IdentityFields(y.resource)|
  {
    hide AttrFields, IdentityFields, NoIdentityKeys, StarFreeAttrs;
    var a, a' := AttrFields(x.attrs), AttrFields(y.attrs);
    var i, i' := IdentityFields(x.resource), IdentityFields(y.resource);
    if |i| < |i'| {
      IdentityFieldsStart(x.resource);
      IdentityFieldsStart(y.resource);
      assert |Fields(x)| == 3 + |a| + |i| && |Fields(y)| == 3 + |a'| + |i'|;
      KeysArePlain(x.attrs, |a'| / 2);
      KeysArePlain(y.attrs, 0);
      Overhang(Header(x), a, i, Header(y), a', i');
    }
  }

  /** Unless point attributes are keyed "job" or "instance", a shared signature means the same series. */
  lemma NoCollision(x: Series, y: Series)
    requires StarFree(x) && StarFree(y) && NoIdentityKeys(x.attrs) && NoIdentityKeys(y.attrs)
    ensures TimeseriesSignature(x) == TimeseriesSignature(y) <==> SameSeries(x, y)
  {
    hide AttrFields, TimeseriesSignature, NoIdentityKeys, SameSeries;
    SameSignatureSameFields(x, y);
    SignatureInjective(x, y);
    if Fields(x) == Fields(y) {
      EquallyManyIdentityFields(x, y);
      EquallyManyIdentityFields(y, x);
      SplitFields(x, y);
      IdentityFieldsInjective(x.resource, y.resource);
    }
  }

  /** Where presence differs, a point attribute and a resource attribute can spell the same fields. */
  lemma JobAttributeCollides(scope: string, kind: Kind, name: string)
    ensures TimeseriesSignature(Series(scope, kind, name, [KV("a", Str("1")), KV("job", Str("x"))], []))
         == TimeseriesSignature(Series(scope, kind, name, [KV("a", Str("1"))], [KV(Resource.SERVICE_NAME, Str("x"))]))
    ensures !SamePresence([], [KV(Resource.SERVICE_NAME, Str("x"))])
  {
    var own, shared := [KV("a", Str("1")), KV("job", Str("x"))], [KV("a", Str("1"))];
    assert own[1..] == [KV("job", Str("x"))] && own[1..][1..] == [] && shared[1..] == [];
    assert "a" + [STAR] + "1" == "a*1" && "job" + [STAR] + "x" == "job*x";
    assert Rendered(own) == ["a*1", "job*x"] && Rendered(shared) == ["a*1"];
    assert ["a*1", "job*x"][1..] == ["job*x"];
    assert SortBy(LexLeq, ["a*1", "job*x"]) == InsertBy(LexLeq, "a*1", ["job*x"]) == ["a*1", "job*x"];
    assert SortBy(LexLeq, ["a*1"]) == ["a*1"];
    assert Join(["a*1", "job*x"]) == "a*1*job*x";
    var r := [KV(Resource.SERVICE_NAME, Str("x"))];
    GetAt(r, 0);
    assert |Resource.SERVICE_NAMESPACE| != |Resource.SERVICE_NAME|;
    assert Resource.ExtractJob(r) == Some("x");
    assert Resource.SERVICE_INSTANCE_ID[8] != Resource.SERVICE_NAME[8];
  }

  lemma SortedText()
    ensures Join(SortBy(LexLeq, Rendered([KV("b", Str("2")), KV("a", Str("1"))]))) == "a*1*b*2"
  {
    var attrs := [KV("b", Str("2")), KV("a", Str("1"))];
    assert attrs[1..] == [KV("a", Str("1"))] && attrs[1..][1..] == [];
    assert "b" + [STAR] + "2" == "b*2" && "a" + [STAR] + "1" == "a*1";
    assert Rendered(attrs) == ["b*2", "a*1"];
    assert ["b*2", "a*1"][1..] == ["a*1"] && ["a*1"][1..] == [];
    assert SortBy(LexLeq, ["a*1"]) == ["a*1"];
    assert !LexLeq("b*2", "a*1");
    assert SortBy(LexLeq, ["b*2", "a*1"]) == InsertBy(LexLeq, "b*2", ["a*1"]) == ["a*1", "b*2"];
    assert ["a*1", "b*2"][1..] == ["b*2"];
    assert Join(["a*1", "b*2"]) == "a*1*b*2";
  }

  /** A signature spelled out: type, scope, name, attributes in order of their texts, job and instance. */
  lemma SignatureText(scope: string, name: string, kind: Kind, r: Attrs, job: string, inst: string)
    requires Resource.ExtractJob(r) == Some(job) && Resource.ExtractInstance(r) == Some(inst)
    ensures var text := "*" + scope + "*" + name + "*" + "a*1*b*2" + ("*job*" + job) + ("*instance*" + inst);
      var signature := TimeseriesSignature(Series(scope, kind, name, [KV("b", Str("2")), KV("a", Str("1"))], r));
      && (kind.Gauge? ==> signature == "Gauge" + text)
      && (kind.Sum? ==> signature == "Sum" + text)
      && (kind.Histogram? ==> signature == "Histogram" + text)
      && (kind.Summary? ==> signature == "Summary" + text)
  {
    hide Join, SortBy, Rendered, Resource.ExtractJob, Resource.ExtractInstance, LabelSuffix;
    SortedText();
    SuffixText(job, inst);
    var attrs := "a*1*b*2";
    Regroup(TypeName(kind), scope, name, attrs, "*job*" + job, "*instance*" + inst);
  }

  lemma SuffixText(job: string, inst: string)
    ensures LabelSuffix(Resource.JOB_LABEL, Some(job)) == "*job*" + job
    ensures LabelSuffix(Resource.INSTANCE_LABEL, Some(inst)) == "*instance*" + inst
  {}

  lemma Regroup(t: string, scope: string, name: string, attrs: string, j: string, i: string)
    ensures t + [STAR] + scope + [STAR] + name + [STAR] + attrs + j + i
         == t + ("*" + scope + "*" + name + "*" + attrs + j + i)
  {}
}
