/**
 Flattening a document into its plain values by path, and the proof that expanding a dictionary of such paths, in any
 order, gives the document's tree, lists having become index-keyed dictionaries.
 */
module JuliaPrinter {
  import opened JuliaParser
  import opened JuliaAliases
  import opened JuliaSlots
  import opened Wrappers
  import Text
  import FiniteSets

  /** An encoded document: dictionaries, lists and plain values. */
  datatype Document =
    | Plain(text: string)
    | Object(members: map<string, Document>)
    | Array(elements: seq<Document>)

  /** The parts of a document under their keys; a list's are keyed by index. */
  function Parts(doc: Document): (m: map<string, Document>)
    requires !doc.Plain?
    ensures forall k :: k in m ==> m[k] < doc
  {
    Text.DecimalsDiffer();
    match doc
    case Object(members) => members
    case Array(elements) => map i | 0 <= i < |elements| :: Text.Decimal(i) := elements[i]
  }

  /** The document with lists as index-keyed dictionaries. */
  function AsTree(doc: Document): Value {
    if doc.Plain? then Scalar(doc.text) else Dict(map k | k in Parts(doc) :: AsTree(Parts(doc)[k]))
  }

  /** The plain value of a document at a path, if there is one. */
  function LeafAt(doc: Document, p: Path): Option<string> {
    if doc.Plain? then if p == [] then Some(doc.text) else None
    else if p == [] || p[0] !in Parts(doc) then None
    else LeafAt(Parts(doc)[p[0]], p[1..])
  }

  function Lookup(m: map<Path, string>, p: Path): Option<string> {
    if p in m then Some(m[p]) else None
  }

  /** The dictionary of exactly the document's plain values, by path. */
  ghost predicate IsLeaves(leaves: map<Path, string>, doc: Document) {
    forall p :: Lookup(leaves, p) == LeafAt(doc, p)
  }

  /** No part, however deep, is an empty dictionary or list. */
  ghost predicate NoEmptyParts(doc: Document) {
    !doc.Plain? ==> forall k :: k in Parts(doc) ==>
      NoEmptyParts(Parts(doc)[k]) && (!Parts(doc)[k].Plain? ==> Parts(Parts(doc)[k]) != map[])
  }

  // ---------------------------------------------------------------- flattening

  /** What a document placed under a prefix has at a path. */
  function Under(prefix: Path, doc: Document, p: Path): Option<string> {
    if prefix <= p then LeafAt(doc, p[|prefix|..]) else None
  }

  /** The same while some parts are still to come. */
  function Filled(result: map<Path, string>, prefix: Path, doc: Document, todo: set<string>, p: Path): Option<string> {
    var value := Under(prefix, doc, p);
    if value.Some? && |p| > |prefix| && p[|prefix|] !in todo then value else Lookup(result, p)
  }

  /** Put the plain values of a document into a dictionary, each under its path. */
  method AddItems(result: map<Path, string>, prefix: Path, doc: Document) returns (r: map<Path, string>)
    ensures forall p :: Lookup(r, p) == if Under(prefix, doc, p).Some? then Under(prefix, doc, p) else Lookup(result, p)
    decreases doc
  {
    if doc.Plain? {
      r := result[prefix := doc.text];
      forall p { UnderPlain(prefix, doc, p); }
      return;
    }
    r := result;
    var todo := Parts(doc).Keys;
    forall p { FilledEnds(result, prefix, doc, p); }
    while todo != {}
      invariant todo <= Parts(doc).Keys
      invariant forall p :: Lookup(r, p) == Filled(result, prefix, doc, todo, p)
      decreases |todo|
    {
      var k := FiniteSets.Pick(todo);
      forall p { FilledMore(result, prefix, doc, todo, k, p); }
      r := AddItems(r, prefix + [k], Parts(doc)[k]);
      todo := todo - {k};
    }
  }

  lemma UnderPlain(prefix: Path, doc: Document, p: Path)
    requires doc.Plain?
    ensures Under(prefix, doc, p) == if p == prefix then Some(doc.text) else None
  {
    if prefix <= p && p[|prefix|..] == [] { assert p == prefix; }
  }

  /** Nothing is filled in while all parts are to come, and everything when none is. */
  lemma FilledEnds(result: map<Path, string>, prefix: Path, doc: Document, p: Path)
    requires !doc.Plain?
    ensures Filled(result, prefix, doc, Parts(doc).Keys, p) == Lookup(result, p)
    ensures Filled(result, prefix, doc, {}, p) ==
            if Under(prefix, doc, p).Some? then Under(prefix, doc, p) else Lookup(result, p)
  {
    if Under(prefix, doc, p).Some? {
      assert p[|prefix|..] != [] && p[|prefix|..][0] == p[|prefix|];
    }
  }

  /** Filling in one more part. */
  lemma FilledMore(result: map<Path, string>, prefix: Path, doc: Document, todo: set<string>, k: string, p: Path)
    requires !doc.Plain? && k in todo && k in Parts(doc)
    ensures var part := Under(prefix + [k], Parts(doc)[k], p);
            Filled(result, prefix, doc, todo - {k}, p)
            == if part.Some? then part else Filled(result, prefix, doc, todo, p)
  {
    UnderPart(prefix, doc, k, p);
  }

  lemma UnderPart(prefix: Path, doc: Document, k: string, p: Path)
    requires !doc.Plain? && k in Parts(doc)
    ensures Under(prefix, doc, p).Some? ==> |p| > |prefix|
    ensures Under(prefix + [k], Parts(doc)[k], p)
         == if |p| > |prefix| && p[|prefix|] == k then Under(prefix, doc, p) else None
  {
    if prefix <= p && |p| > |prefix| {
      var rest := p[|prefix|..];
      if p[|prefix|] == k {
        assert p[..|prefix| + 1] == prefix + [k];
        assert rest[1..] == p[|prefix + [k]|..];
      }
    }
  }

  /** Flatten a document. */
  method ToJuliaDict(doc: Document) returns (leaves: map<Path, string>)
    ensures IsLeaves(leaves, doc)
  {
    leaves := AddItems(map[], [], doc);
    forall p ensures Under([], doc, p) == LeafAt(doc, p) {
      assert p[0..] == p;
    }
  }

  // ---------------------------------------------------------------- the tree's slots

  /** Some plain value lies strictly beyond the path. */
  ghost predicate Beyond(doc: Document, q: Path) {
    exists p :: LeafAt(doc, p).Some? && q < p
  }

  lemma {:induction false} SomeLeaf(doc: Document) returns (p: Path)
    requires NoEmptyParts(doc) && (!doc.Plain? ==> Parts(doc) != map[])
    ensures LeafAt(doc, p).Some?
    decreases doc
  {
    if doc.Plain? {
      p := [];
    } else {
      var k := FiniteSets.Member(Parts(doc).Keys);
      var q := SomeLeaf(Parts(doc)[k]);
      p := [k] + q;
      assert p[1..] == q;
    }
  }

  lemma BeyondPart(doc: Document, q: Path)
    requires !doc.Plain? && q != [] && q[0] in Parts(doc)
    ensures Beyond(doc, q) <==> Beyond(Parts(doc)[q[0]], q[1..])
  {
    if p :| LeafAt(doc, p).Some? && q < p {
      assert LeafAt(Parts(doc)[q[0]], p[1..]).Some? && q[1..] < p[1..];
    }
    if p :| LeafAt(Parts(doc)[q[0]], p).Some? && q[1..] < p {
      var longer := [q[0]] + p;
      assert longer[1..] == p && LeafAt(doc, longer).Some?;
      assert q == [q[0]] + q[1..];
      assert q < longer;
    }
  }

  /** The tree of a document has a dictionary at every path that goes on, the plain values, and nothing else. */
  lemma {:induction false} TreeSlots(doc: Document, q: Path)
    requires !doc.Plain? && NoEmptyParts(doc)
    ensures SlotAt(AsTree(doc).entries, q) ==
            if q == [] || Beyond(doc, q) then Inner
            else if LeafAt(doc, q).Some? then Leaf(Scalar(LeafAt(doc, q).value))
            else Absent
    decreases doc
  {
    if q == [] {
    } else if q[0] !in Parts(doc) {
      forall p | LeafAt(doc, p).Some? ensures !(q < p) {}
    } else {
      var part := Parts(doc)[q[0]];
      BeyondPart(doc, q);
      if part.Plain? {
        forall p | LeafAt(part, p).Some? ensures p == [] {}
      } else {
        if |q| == 1 {
          var p := SomeLeaf(part);
          assert p != [] && q[1..] < p;
        }
        TreeSlots(part, q[1..]);
      }
    }
  }

  // ---------------------------------------------------------------- from the parsed dictionary to the tree

  /** The parsed dictionary has one key for each plain value, whose target is the value's path. */
  ghost predicate Holds(items: Tree, x: Expansion, leaves: map<Path, string>) {
    && (forall k :: k in items ==>
      x.target(k) in leaves && items[k] == Scalar(leaves[x.target(k)]) && x.spread(k, items[k]) == [items[k]])
    && (forall p :: p in leaves ==> exists k :: k in items && x.target(k) == p)
    && (forall a, b :: a in items && b in items && x.target(a) == x.target(b) ==> a == b)
  }

  lemma HoldsPaths(items: Tree, x: Expansion, leaves: map<Path, string>, keys: seq<string>)
    requires Holds(items, x, leaves) && ListsKeys(keys, items)
    ensures PathsDiffer(x, keys) && AllSettable(x, items, keys) && FromQuery(items)
  {
    forall i, j | 0 <= i < j < |keys| ensures x.target(keys[i]) != x.target(keys[j]) {
      assert keys[i] in items && keys[j] in items && keys[i] != keys[j];
    }
  }

  lemma ExtendedIffBeyond(doc: Document, leaves: map<Path, string>, items: Tree, x: Expansion, keys: seq<string>,
                          q: Path)
    requires IsLeaves(leaves, doc) && Holds(items, x, leaves) && ListsKeys(keys, items)
    ensures Extended(x, keys, q) <==> Beyond(doc, q)
  {
    if k :| k in keys && q < x.target(k) {
      assert Lookup(leaves, x.target(k)) == LeafAt(doc, x.target(k));
    }
    if p :| LeafAt(doc, p).Some? && q < p {
      assert Lookup(leaves, p) == LeafAt(doc, p);
      var k :| k in items && x.target(k) == p;
      assert k in keys;
    }
  }

  lemma TakenIffLeaf(doc: Document, leaves: map<Path, string>, items: Tree, x: Expansion, keys: seq<string>, q: Path)
    requires IsLeaves(leaves, doc) && Holds(items, x, leaves) && ListsKeys(keys, items)
    ensures Taken(x, keys, q) <==> LeafAt(doc, q).Some?
    ensures forall k :: k in keys && x.target(k) == q ==>
              LeafAt(doc, q).Some? && x.spread(k, items[k]) == [Scalar(LeafAt(doc, q).value)]
  {
    assert Lookup(leaves, q) == LeafAt(doc, q);
    if q in leaves {
      var k :| k in items && x.target(k) == q;
      assert k in keys;
    }
  }

  lemma DecodedSlot(doc: Document, leaves: map<Path, string>, items: Tree, x: Expansion, keys: seq<string>, q: Path)
    requires !doc.Plain? && NoEmptyParts(doc) && IsLeaves(leaves, doc) && Regular(x)
    requires Holds(items, x, leaves) && ListsKeys(keys, items)
    ensures SlotAt(InPlace(items, x, keys), q) == SlotAt(AsTree(doc).entries, q)
  {
    HoldsPaths(items, x, leaves, keys);
    ExpansionSlots(x, items, keys, q);
    TreeSlots(doc, q);
    ExtendedIffBeyond(doc, leaves, items, x, keys, q);
    TakenIffLeaf(doc, leaves, items, x, keys, q);
  }

  /** Expanding such a dictionary in any order gives the document's tree. */
  lemma DecodedTree(doc: Document, leaves: map<Path, string>, items: Tree, x: Expansion, keys: seq<string>)
    requires !doc.Plain? && NoEmptyParts(doc) && IsLeaves(leaves, doc) && Regular(x)
    requires Holds(items, x, leaves) && ListsKeys(keys, items)
    ensures Dict(InPlace(items, x, keys)) == AsTree(doc)
  {
    forall q ensures SlotAt(InPlace(items, x, keys), q) == SlotAt(AsTree(doc).entries, q) {
      DecodedSlot(doc, leaves, items, x, keys, q);
    }
    SameSlots(Dict(InPlace(items, x, keys)), AsTree(doc));
  }
}
