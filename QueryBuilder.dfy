/** The Overpass query builder: tag predicates, their bracketed filter
    fragments, and the node and way queries over a bounding box. */
module QueryBuilder {
  import opened Ordering
  import opened Sequences

  /** A filter on a feature's tags. Negation is meant to wrap one of the
      three simple key/value forms only; other negations can be built but
      are invalid. */
  datatype Tag =
    | Not(inner: Tag)
    | HasKey(key: string)
    | HasValue(key: string, value: string)
    | MatchesValue(key: string, value: string)
    | MatchesKeyAndValue(key: string, value: string)

  /** `Tag.isValid()`: a double negation and a negated key-and-value match
      are rejected; this looks one level down only. */
  predicate IsValid(t: Tag)
  {
    match t
    case Not(Not(_)) => false
    case Not(MatchesKeyAndValue(_, _)) => false
    case _ => true
  }

  /** Exactly the two documented forms are invalid. */
  lemma InvalidForms(t: Tag)
    ensures !IsValid(t) <==> (exists u :: t == Not(Not(u))) || (exists k, v :: t == Not(MatchesKeyAndValue(k, v)))
  {
    if !IsValid(t) {
      if t.inner.Not? { assert t == Not(Not(t.inner.inner)); }
      else { assert t == Not(MatchesKeyAndValue(t.inner.key, t.inner.value)); }
    }
  }

  /** Negating an invalid tag gives an invalid tag again. */
  lemma NegatedInvalidIsInvalid(t: Tag)
    requires !IsValid(t)
    ensures !IsValid(Not(t))
  {
  }

  /** `Tag ==`: both sides must be valid; then the cases are compared
      structurally, negations recursively. */
  function TagEq(l: Tag, r: Tag): bool
  {
    if !(IsValid(l) && IsValid(r)) then false
    else
      match (l, r)
      case (Not(a), Not(b)) => TagEq(a, b)
      case (HasKey(a), HasKey(b)) => a == b
      case (HasValue(a, x), HasValue(b, y)) => a == b && x == y
      case (MatchesValue(a, x), MatchesValue(b, y)) => a == b && x == y
      case (MatchesKeyAndValue(a, x), MatchesKeyAndValue(b, y)) => a == b && x == y
      case _ => false
  }

  /** An invalid tag equals nothing, itself included. */
  lemma TagEqNeedsValid(l: Tag, r: Tag)
    ensures TagEq(l, r) ==> IsValid(l) && IsValid(r)
    ensures !IsValid(l) ==> !TagEq(l, l)
  {
  }

  /** On valid tags the comparison is structural equality. */
  lemma {:induction false} TagEqIsStructural(l: Tag, r: Tag)
    requires IsValid(l) && IsValid(r)
    ensures TagEq(l, r) <==> l == r
  {
    if l.Not? && r.Not? {
      TagEqIsStructural(l.inner, r.inner);
    }
  }

  /** `Tag.query()`: one bracketed fragment per valid form, the empty
      string for an invalid tag. Keys and values are pasted in unescaped. */
  function Query(t: Tag): (r: string)
    ensures r == "" <==> !IsValid(t)
    ensures r != "" ==> r[0] == '[' && r[|r| - 1] == ']'
  {
    match t
    case HasKey(k) => "[\"" + k + "\"]"
    case HasValue(k, v) => "[\"" + k + "\"=\"" + v + "\"]"
    case MatchesValue(k, v) => "[\"" + k + "\"~\"" + v + "\"]"
    case MatchesKeyAndValue(k, v) => "[~\"" + k + "\"~\"" + v + "\"]"
    case Not(HasKey(k)) => "[!\"" + k + "\"]"
    case Not(HasValue(k, v)) => "[\"" + k + "\"!=\"" + v + "\"]"
    case Not(MatchesValue(k, v)) => "[\"" + k + "\"!~\"" + v + "\"]"
    case _ => ""
  }

  /** The south, west, north and east edges in degrees. */
  datatype BoundingBox = BoundingBox(south: real, west: real, north: real, east: real)

  /** `BoundingBox.query`; `fmt` is Swift's textual form of a `Double`. */
  function BoxQuery(b: BoundingBox, fmt: real -> string): (r: string)
    ensures |r| >= 2 && r[0] == '(' && r[|r| - 1] == ')'
  {
    "(" + fmt(b.south) + ", " + fmt(b.west) + ", " + fmt(b.north) + ", " + fmt(b.east) + ")"
  }

  datatype ElementType = NodeType | WayType

  function TypeName(k: ElementType): string
  {
    match k
    case NodeType => "node"
    case WayType => "way"
  }

  /** `tags.map { $0.query() }`, in the order the tag set is iterated. */
  function Fragments(tags: seq<Tag>): seq<string>
  {
    Map(Query, tags)
  }

  /** The filter section: the fragments sorted and concatenated. */
  function TagsString(tags: seq<Tag>): string
  {
    Join(Sort(Fragments(tags)))
  }

  /** `buildQuery(of:recursive:boundingBox:tags:)`. The source stops with a
      fatal error for a recursive node query and for a non-recursive way
      query; the precondition excludes those two calls. */
  function BuildQuery(kind: ElementType, recursive: bool, box: BoundingBox, tags: seq<Tag>, fmt: real -> string): (r: string)
    requires recursive <==> kind == WayType
    ensures |r| > |TypeName(kind)| && r[..|TypeName(kind)|] == TypeName(kind)
  {
    var tagsString := TagsString(tags);
    match kind
    case NodeType => TypeName(kind) + tagsString + BoxQuery(box, fmt) + ";"
    case WayType => TypeName(kind) + tagsString + BoxQuery(box, fmt) + ";(._;>;);"
  }

  /** `nodeQuery(boundingBox:tags:)`: the matching nodes, not recursed. */
  function NodeQuery(box: BoundingBox, tags: seq<Tag>, fmt: real -> string): (r: string)
    ensures r == "node" + TagsString(tags) + BoxQuery(box, fmt) + ";"
  {
    BuildQuery(NodeType, false, box, tags, fmt)
  }

  /** `wayQuery(boundingBox:tags:)`: the matching ways and, through the
      recursion suffix, every node they reference. */
  function WayQuery(box: BoundingBox, tags: seq<Tag>, fmt: real -> string): (r: string)
    ensures r == "way" + TagsString(tags) + BoxQuery(box, fmt) + ";(._;>;);"
  {
    BuildQuery(WayType, true, box, tags, fmt)
  }

  /** The filter section does not depend on the order in which the tag set
      is iterated. */
  lemma TagsStringOrderIndependent(a: seq<Tag>, b: seq<Tag>)
    requires multiset(a) == multiset(b)
    ensures TagsString(a) == TagsString(b)
  {
    MapPermutation(Query, a, b);
    SortPermutationInvariant(Fragments(a), Fragments(b));
  }

  /** Two iteration orders of the same tags give the same node query and
      the same way query. */
  lemma QueriesOrderIndependent(box: BoundingBox, a: seq<Tag>, b: seq<Tag>, fmt: real -> string)
    requires multiset(a) == multiset(b)
    ensures NodeQuery(box, a, fmt) == NodeQuery(box, b, fmt)
    ensures WayQuery(box, a, fmt) == WayQuery(box, b, fmt)
  {
    TagsStringOrderIndependent(a, b);
  }

  ghost predicate Distinct(s: seq<Tag>)
  {
    forall i, j :: 0 <= i < j < |s| ==> s[i] != s[j]
  }

  lemma {:induction false} DistinctMultiplicity(s: seq<Tag>, x: Tag)
    requires Distinct(s)
    ensures multiset(s)[x] == if x in s then 1 else 0
  {
    if s != [] {
      assert s == [s[0]] + s[1..];
      assert multiset(s)[x] == multiset{s[0]}[x] + multiset(s[1..])[x];
      DistinctMultiplicity(s[1..], x);
      if x == s[0] { assert x !in s[1..]; }
    }
  }

  /** Two orders in which a set can be iterated (each member once) hold the
      same tags with the same multiplicities, so they give the same query. */
  lemma SetOrderIndependent(box: BoundingBox, a: seq<Tag>, b: seq<Tag>, fmt: real -> string)
    requires Distinct(a) && Distinct(b) && forall t :: t in a <==> t in b
    ensures NodeQuery(box, a, fmt) == NodeQuery(box, b, fmt)
    ensures WayQuery(box, a, fmt) == WayQuery(box, b, fmt)
  {
    forall x ensures multiset(a)[x] == multiset(b)[x] {
      DistinctMultiplicity(a, x);
      DistinctMultiplicity(b, x);
    }
    assert multiset(a) == multiset(b);
    QueriesOrderIndependent(box, a, b, fmt);
  }

  /** The valid tags, in order. */
  function ValidOnly(tags: seq<Tag>): seq<Tag>
  {
    Filter(IsValid, tags)
  }

  /** Invalid tags contribute nothing to a query: their empty fragments sort
      first and vanish in the concatenation. */
  lemma InvalidTagsIgnored(tags: seq<Tag>)
    ensures TagsString(tags) == TagsString(ValidOnly(tags))
  {
    var n := CountNot(IsValid, tags);
    var empties: seq<string> := Repeat("", n);
    var rest := Sort(Fragments(ValidOnly(tags)));
    MapFilterSplit(Query, IsValid, "", tags);
    assert Sorted(empties + rest) by {
      forall i, j | 0 <= i < j < |empties + rest| ensures Below((empties + rest)[i], (empties + rest)[j]) {
        if i < n { EmptyIsLeast((empties + rest)[j]); }
      }
    }
    SortedUnique(Sort(Fragments(tags)), empties + rest);
    JoinAppend(empties, rest);
    JoinEmpties(n);
  }

  /** With no tags the query has no filter fragments at all. */
  lemma EmptyTagSet(box: BoundingBox, fmt: real -> string)
    ensures NodeQuery(box, [], fmt) == "node" + BoxQuery(box, fmt) + ";"
    ensures WayQuery(box, [], fmt) == "way" + BoxQuery(box, fmt) + ";(._;>;);"
  {
  }

  lemma ExampleFragmentsSorted(f0: string, f1: string)
    requires f0 == "[\"good\"=\"bye\"]" && f1 == "[\"hello\"]"
    ensures Sort([f0, f1]) == [f0, f1]
  {
    assert Below(f0, f1) by {
      assert f0[0] == f1[0] && f0[1] == f1[1] && f0[2] < f1[2];
      assert f0[1..][1..] == f0[2..] && f1[1..][1..] == f1[2..];
    }
    assert [f0, f1][1..] == [f1] && [f1][1..] == [];
    assert Sort([f1]) == Insert(f1, []) == [f1];
    assert Insert(f0, [f1]) == [f0] + [f1];
  }

  lemma ExampleFilterSection(tags: seq<Tag>, f0: string, f1: string)
    requires tags == [HasValue("good", "bye"), HasKey("hello")]
    requires f0 == "[\"good\"=\"bye\"]" && f1 == "[\"hello\"]"
    ensures TagsString(tags) == f0 + f1
  {
    assert Fragments(tags) == [f0, f1] by {
      assert Query(tags[0]) == f0 && Query(tags[1]) == f1;
    }
    ExampleFragmentsSorted(f0, f1);
    assert Join([f0, f1]) == f0 + f1 by {
      assert [f0, f1][1..] == [f1];
    }
  }

  lemma ExampleBox(b: BoundingBox, fmt: real -> string)
    requires b == BoundingBox(1.5, 1.75, 2.5, 2.75)
    requires fmt(1.5) == "1.5" && fmt(1.75) == "1.75" && fmt(2.5) == "2.5" && fmt(2.75) == "2.75"
    ensures BoxQuery(b, fmt) == "(1.5, 1.75, 2.5, 2.75)"
  {
    assert fmt(b.south) == "1.5" && fmt(b.west) == "1.75" && fmt(b.north) == "2.5" && fmt(b.east) == "2.75";
  }

  /** The query for the bounding box (1.5, 1.75, 2.5, 2.75) with the tags
      hasKey("hello") and hasValue("good", "bye"), in either set order:
      the fragment for hasValue sorts first. */
  lemma TwoTagExample(fmt: real -> string, tags: seq<Tag>)
    requires fmt(1.5) == "1.5" && fmt(1.75) == "1.75" && fmt(2.5) == "2.5" && fmt(2.75) == "2.75"
    requires multiset(tags) == multiset{HasKey("hello"), HasValue("good", "bye")}
    ensures NodeQuery(BoundingBox(1.5, 1.75, 2.5, 2.75), tags, fmt)
         == "node" + "[\"good\"=\"bye\"]" + "[\"hello\"]" + "(1.5, 1.75, 2.5, 2.75)" + ";"
    ensures WayQuery(BoundingBox(1.5, 1.75, 2.5, 2.75), tags, fmt)
         == "way" + "[\"good\"=\"bye\"]" + "[\"hello\"]" + "(1.5, 1.75, 2.5, 2.75)" + ";(._;>;);"
  {
    ExampleAssembled(fmt, tags, [HasValue("good", "bye"), HasKey("hello")], BoundingBox(1.5, 1.75, 2.5, 2.75),
                     "[\"good\"=\"bye\"]", "[\"hello\"]", "(1.5, 1.75, 2.5, 2.75)");
  }

  /** The body of `TwoTagExample`. The literal tags, box and fragments come in
      as parameters fixed by the requires, so that the solver rewrites with
      names instead of unfolding the functions on literal values. */
  lemma ExampleAssembled(fmt: real -> string, tags: seq<Tag>, ordered: seq<Tag>, box: BoundingBox, f0: string, f1: string, bs: string)
    requires fmt(1.5) == "1.5" && fmt(1.75) == "1.75" && fmt(2.5) == "2.5" && fmt(2.75) == "2.75"
    requires ordered == [HasValue("good", "bye"), HasKey("hello")]
    requires multiset(tags) == multiset(ordered)
    requires box == BoundingBox(1.5, 1.75, 2.5, 2.75)
    requires f0 == "[\"good\"=\"bye\"]" && f1 == "[\"hello\"]" && bs == "(1.5, 1.75, 2.5, 2.75)"
    ensures NodeQuery(box, tags, fmt) == "node" + f0 + f1 + bs + ";"
    ensures WayQuery(box, tags, fmt) == "way" + f0 + f1 + bs + ";(._;>;);"
  {
    TagsStringOrderIndependent(tags, ordered);
    ExampleFilterSection(ordered, f0, f1);
    ExampleBox(box, fmt);
    assert "node" + (f0 + f1) == "node" + f0 + f1;
    assert "way" + (f0 + f1) == "way" + f0 + f1;
  }
}
