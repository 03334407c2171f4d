/** `merge_dictionaries` as written: dictionaries are copied, but lists and sets are objects that it
    extends in place, so the result shares them with its arguments. */
module MergeInPlace {
  import opened Wrappers
  import opened Merge

  class ListObject {
    var items: seq<Yaml>
    constructor (items: seq<Yaml>)
      ensures this.items == items
    {
      this.items := items;
    }
  }

  class SetObject {
    var members: set<int>
    constructor (members: set<int>)
      ensures this.members == members
    {
      this.members := members;
    }
  }

  datatype Node =
    | DictNode(entries: map<string, Node>)
    | ListNode(list: ListObject)
    | SetNode(collection: SetObject)
    | ScalarNode(value: int)

  /** The objects a tree is made of. */
  ghost function Objects(n: Node): set<object> {
    match n
    case DictNode(entries) => set k, o | k in entries.Keys && o in Objects(entries[k]) :: o
    case ListNode(list) => {list}
    case SetNode(members) => {members}
    case ScalarNode(_) => {}
  }

  /** A tree that exists is made of objects that exist. */
  lemma {:induction false} ObjectsExist(n: Node)
    ensures forall o <- Objects(n) :: allocated(o)
  {
    match n {
      case DictNode(entries) =>
        forall k <- entries
          ensures forall o <- Objects(entries[k]) :: allocated(o)
        {
          ObjectsExist(entries[k]);
        }
      case _ =>
    }
  }

  lemma ObjectsUnder(entries: map<string, Node>, k: string)
    requires k in entries
    ensures Objects(entries[k]) <= Objects(DictNode(entries))
  {
  }

  /** The tree as a value. */
  ghost function ValueOf(n: Node): Yaml
    reads Objects(n)
  {
    match n
    case DictNode(entries) =>
      Dict(map k | k in entries :: ObjectsUnder(entries, k); ValueOf(entries[k]))
    case ListNode(list) => Items(list.items)
    case SetNode(members) => Members(members.members)
    case ScalarNode(value) => Scalar(value)
  }

  /** No object occurs at two places. */
  ghost predicate Separate(n: Node) {
    match n
    case DictNode(entries) =>
      && (forall k <- entries :: Separate(entries[k]))
      && (forall j, k | j in entries && k in entries && j != k :: Objects(entries[j]) !! Objects(entries[k]))
    case _ => true
  }

  /** The result is built from the two arguments' objects, each used once. */
  ghost predicate BuiltFrom(r: Node, x: Node, y: Node) {
    Separate(r) && Objects(r) <= Objects(x) + Objects(y)
  }

  /** Merging what two dictionaries have under one key. */
  method MergeEntry(x: Node, y: Node) returns (r: Option<Node>)
    requires Separate(x) && Separate(y) && Objects(x) !! Objects(y)
    modifies Objects(x)
    ensures r.Some? <==> old(Mergeable(ValueOf(x), ValueOf(y)))
    ensures r.Some? ==> ValueOf(r.value) == old(Joined(ValueOf(x), ValueOf(y)))
    ensures r.Some? ==> BuiltFrom(r.value, x, y)
    ensures r.Some? && !x.DictNode? ==> r.value == x
    decreases y, 4
  {
    match (x, y) {
      case (DictNode(a), DictNode(b)) =>
        var merged := MergeDictionaries(a, b);
        r := match merged case None => None case Some(entries) => Some(DictNode(entries));
      case (ListNode(a), ListNode(b)) =>
        a.items := a.items + b.items;
        r := Some(x);
      case (SetNode(a), SetNode(b)) =>
        a.members := a.members + b.members;
        r := Some(x);
      case _ =>
        r := None;
    }
  }

  /** What the result should have under a key. */
  ghost function JoinedAt(a: map<string, Yaml>, b: map<string, Yaml>, k: string): Option<Yaml> {
    if k !in b then (if k in a then Some(a[k]) else None)
    else if k !in a then Some(b[k])
    else Merged(Some(a[k]), Some(b[k]))
  }

  ghost function EntriesOf(entries: map<string, Node>): map<string, Yaml>
    reads Objects(DictNode(entries))
  {
    ValueOf(DictNode(entries)).entries
  }

  ghost function ObjectsAt(entries: map<string, Node>, k: string): set<object> {
    if k in entries then Objects(entries[k]) else {}
  }

  /** The copy while some keys are still left: it is built from the arguments, key by key. */
  ghost predicate Underway(
      base: map<string, Node>, additions: map<string, Node>, copy: map<string, Node>, left: set<string>) {
    && left <= additions.Keys && copy.Keys == base.Keys + (additions.Keys - left)
    && (forall k <- copy :: Separate(copy[k]) && Objects(copy[k]) <= ObjectsAt(base, k) + ObjectsAt(additions, k))
    && (forall k <- left :: k in base ==> copy[k] == base[k])
  }

  /** Merging under one key touches nothing under the others. */
  lemma OthersAreApart(
      base: map<string, Node>, additions: map<string, Node>, copy: map<string, Node>, left: set<string>, k: string)
    requires Separate(DictNode(base)) && Separate(DictNode(additions))
    requires Objects(DictNode(base)) !! Objects(DictNode(additions))
    requires Underway(base, additions, copy, left) && k in left && k in base
    ensures forall j <- copy :: j != k ==> Objects(copy[j]) !! Objects(base[k])
    ensures forall j <- additions :: Objects(additions[j]) !! Objects(base[k])
    ensures Objects(base[k]) <= Objects(DictNode(base))
  {
    ObjectsUnder(base, k);
    forall j <- additions
      ensures Objects(additions[j]) !! Objects(base[k])
    {
      ObjectsUnder(additions, j);
    }
    forall j <- copy | j != k
      ensures Objects(copy[j]) !! Objects(base[k])
    {
      assert ObjectsAt(additions, j) !! Objects(base[k]);
      assert ObjectsAt(base, j) !! Objects(base[k]);
    }
  }

  lemma OneKeyDone(
      base: map<string, Node>, additions: map<string, Node>, copy: map<string, Node>, left: set<string>,
      k: string, n: Node)
    requires Underway(base, additions, copy, left) && k in left
    requires Separate(n) && Objects(n) <= ObjectsAt(base, k) + ObjectsAt(additions, k)
    ensures Underway(base, additions, copy[k := n], left - {k})
  {
  }

  lemma DoneIsBuilt(base: map<string, Node>, additions: map<string, Node>, copy: map<string, Node>)
    requires Separate(DictNode(base)) && Separate(DictNode(additions))
    requires Objects(DictNode(base)) !! Objects(DictNode(additions))
    requires Underway(base, additions, copy, {})
    ensures BuiltFrom(DictNode(copy), DictNode(base), DictNode(additions))
  {
    forall k <- copy
      ensures ObjectsAt(base, k) <= Objects(DictNode(base)) && ObjectsAt(additions, k) <= Objects(DictNode(additions))
    {
      AtIsUnder(base, k);
      AtIsUnder(additions, k);
    }
    forall j, k | j in copy && k in copy && j != k
      ensures Objects(copy[j]) !! Objects(copy[k])
    {
      hide Objects, ObjectsAt, Separate;
      AtAreApart(base, j, k);
      AtAreApart(additions, j, k);
    }
  }

  lemma AtIsUnder(entries: map<string, Node>, k: string)
    ensures ObjectsAt(entries, k) <= Objects(DictNode(entries))
  {
    if k in entries {
      ObjectsUnder(entries, k);
    }
  }

  lemma AtAreApart(entries: map<string, Node>, j: string, k: string)
    requires Separate(DictNode(entries)) && j != k
    ensures ObjectsAt(entries, j) !! ObjectsAt(entries, k)
  {
    hide Objects;
  }

  lemma Conflict(a: map<string, Yaml>, b: map<string, Yaml>, k: string)
    requires k in a && k in b && !Mergeable(a[k], b[k])
    ensures !Mergeable(Dict(a), Dict(b))
  {
  }

  lemma AllJoined(a: map<string, Yaml>, b: map<string, Yaml>, all: map<string, Yaml>)
    requires all.Keys == a.Keys + b.Keys && forall k <- all :: Some(all[k]) == JoinedAt(a, b, k)
    ensures Mergeable(Dict(a), Dict(b)) && Dict(all) == Joined(Dict(a), Dict(b))
  {
    forall k <- a.Keys * b.Keys
      ensures Mergeable(a[k], b[k])
    {
      assert k in all;
    }
  }

  /** One turn of the loop over the additions. */
  method MergeKey(
      base: map<string, Node>, additions: map<string, Node>, copy: map<string, Node>, k: string,
      ghost left: set<string>) returns (r: Option<Node>)
    requires Separate(DictNode(base)) && Separate(DictNode(additions))
    requires Objects(DictNode(base)) !! Objects(DictNode(additions))
    requires Underway(base, additions, copy, left) && k in left
    modifies if k in base then Objects(base[k]) else {}
    ensures r.Some? ==> Separate(r.value) && Objects(r.value) <= ObjectsAt(base, k) + ObjectsAt(additions, k)
    ensures k !in base ==> r == Some(additions[k])
    ensures k in base ==> r.Some? == old(Mergeable(ValueOf(base[k]), ValueOf(additions[k])))
    ensures k in base && r.Some? ==> ValueOf(r.value) == old(Joined(ValueOf(base[k]), ValueOf(additions[k])))
    ensures forall j <- copy :: j != k ==> ValueOf(copy[j]) == old(ValueOf(copy[j]))
    ensures forall j <- additions :: ValueOf(additions[j]) == old(ValueOf(additions[j]))
    decreases DictNode(additions), 0
  {
    if k !in base {
      return Some(additions[k]);
    }
    OthersAreApart(base, additions, copy, left, k);
    forall n <- copy.Values + additions.Values
      ensures forall o <- Objects(n) :: allocated(o)
    {
      ObjectsExist(n);
    }
    r := MergeEntry(base[k], additions[k]);
  }

  /** The values while some keys are still left: done keys are merged, the others as at first. */
  ghost predicate ValuesUnderway(
      base: map<string, Node>, additions: map<string, Node>, copy: map<string, Node>, left: set<string>,
      a: map<string, Yaml>, b: map<string, Yaml>)
    reads set k, o | k in copy.Keys && o in Objects(copy[k]) :: o
    reads set k, o | k in additions.Keys && o in Objects(additions[k]) :: o
  {
    && (forall k <- left :: k in additions ==> k in b && ValueOf(additions[k]) == b[k])
    && (forall k <- copy :: if k in left then k in a && ValueOf(copy[k]) == a[k]
                            else Some(ValueOf(copy[k])) == JoinedAt(a, b, k))
  }

  lemma LeftIsOwn(
      base: map<string, Node>, additions: map<string, Node>, copy: map<string, Node>, left: set<string>, k: string)
    requires Underway(base, additions, copy, left) && k in left
    ensures k in additions && (k in base <==> k in copy) && (k in base ==> copy[k] == base[k])
  {
  }

  /** One turn of the loop, for the values. */
  method MergeTurn(
      base: map<string, Node>, additions: map<string, Node>, copy: map<string, Node>, k: string,
      ghost left: set<string>, ghost a: map<string, Yaml>, ghost b: map<string, Yaml>)
      returns (r: Option<map<string, Node>>)
    requires Separate(DictNode(base)) && Separate(DictNode(additions))
    requires Objects(DictNode(base)) !! Objects(DictNode(additions))
    requires a.Keys == base.Keys && b.Keys == additions.Keys
    requires Underway(base, additions, copy, left) && k in left
    requires ValuesUnderway(base, additions, copy, left, a, b)
    modifies if k in base then Objects(base[k]) else {}
    ensures r.Some? ==> Underway(base, additions, r.value, left - {k})
    ensures r.Some? ==> ValuesUnderway(base, additions, r.value, left - {k}, a, b)
    ensures r.None? ==> !Mergeable(Dict(a), Dict(b))
    decreases DictNode(additions), 1
  {
    hide Separate, Objects, ValueOf, Joined, Mergeable, Underway, ObjectsAt;
    LeftIsOwn(base, additions, copy, left, k);
    var merged := MergeKey(base, additions, copy, k, left);
    if merged.None? {
      Conflict(a, b, k);
      return None;
    }
    OneKeyDone(base, additions, copy, left, k, merged.value);
    r := Some(copy[k := merged.value]);
  }

  /** The loop over the additions, given the values that the two arguments have at first. */
  method MergeKeys(
      base: map<string, Node>, additions: map<string, Node>,
      ghost a: map<string, Yaml>, ghost b: map<string, Yaml>) returns (r: Option<map<string, Node>>)
    requires Separate(DictNode(base)) && Separate(DictNode(additions))
    requires Objects(DictNode(base)) !! Objects(DictNode(additions))
    requires a.Keys == base.Keys && (forall k <- base :: ValueOf(base[k]) == a[k])
    requires b.Keys == additions.Keys && (forall k <- additions :: ValueOf(additions[k]) == b[k])
    modifies Objects(DictNode(base))
    ensures r.Some? ==> Underway(base, additions, r.value, {}) && ValuesUnderway(base, additions, r.value, {}, a, b)
    ensures r.None? ==> !Mergeable(Dict(a), Dict(b))
    decreases DictNode(additions), 2
  {
    hide Separate, Objects, ValueOf, Joined, Mergeable;
    var copy := base;
    var left := additions.Keys;
    BaseIsUnderway(base, additions);
    while left != {}
      invariant Underway(base, additions, copy, left)
      invariant ValuesUnderway(base, additions, copy, left, a, b)
      decreases left
    {
      var k :| k in left;
      if k in base {
        ObjectsUnder(base, k);
      }
      var merged := MergeTurn(base, additions, copy, k, left, a, b);
      if merged.None? {
        return None;
      }
      copy := merged.value;
      left := left - {k};
    }
    r := Some(copy);
  }

  lemma BaseIsUnderway(base: map<string, Node>, additions: map<string, Node>)
    requires Separate(DictNode(base))
    ensures Underway(base, additions, base, additions.Keys)
  {
  }

  /** `merge_dictionaries`: the result is the merge of the two values, or none if they conflict. */
  method MergeDictionaries(base: map<string, Node>, additions: map<string, Node>)
    returns (r: Option<map<string, Node>>)
    requires Separate(DictNode(base)) && Separate(DictNode(additions))
    requires Objects(DictNode(base)) !! Objects(DictNode(additions))
    modifies Objects(DictNode(base))
    ensures r.Some? <==> old(Mergeable(ValueOf(DictNode(base)), ValueOf(DictNode(additions))))
    ensures r.Some? ==>
              ValueOf(DictNode(r.value)) == old(Joined(ValueOf(DictNode(base)), ValueOf(DictNode(additions))))
    ensures r.Some? ==> BuiltFrom(DictNode(r.value), DictNode(base), DictNode(additions))
    decreases DictNode(additions), 3
  {
    ghost var a, b := EntriesOf(base), EntriesOf(additions);
    assert ValueOf(DictNode(base)) == Dict(a) && ValueOf(DictNode(additions)) == Dict(b);
    hide Separate, Objects, Joined, Mergeable, BuiltFrom;
    r := MergeKeys(base, additions, a, b);
    if r.Some? {
      DoneIsBuilt(base, additions, r.value);
      AllJoined(a, b, EntriesOf(r.value));
    }
  }

  /** Why sharing has to be excluded: if two keys share one list, as YAML anchors can make them,
      merging into it under one key shows under the other. */
  method SharedListShowsTwice() returns (base: map<string, Node>)
    ensures base.Keys == {"a", "b"} && base["a"].ListNode? && base["b"] == base["a"] && !Separate(DictNode(base))
    ensures fresh(base["a"].list) && ValueOf(base["b"]) == Items([Scalar(1)])
  {
    var shared := new ListObject([]);
    var addition := new ListObject([Scalar(1)]);
    base := map["a" := ListNode(shared), "b" := ListNode(shared)];
    assert shared in Objects(base["a"]) && shared in Objects(base["b"]);
    assert "a" != "b" && !(Objects(base["a"]) !! Objects(base["b"]));
    assert ValueOf(base["b"]) == Items([]);
    var merged := MergeEntry(base["a"], ListNode(addition));
    assert merged.Some?;
    ValueOfList(base["b"].list);
  }

  lemma ValueOfList(list: ListObject)
    ensures ValueOf(ListNode(list)) == Items(list.items)
  {
  }

  // ---------------------------------------------------------------- the documents of one file

  /** A parsed document, or null. */
  type Document = Option<Node>

  ghost function ObjectsIn(doc: Document): set<object> {
    if doc.Some? then Objects(doc.value) else {}
  }

  ghost function ValueIn(doc: Document): Option<Yaml>
    reads ObjectsIn(doc)
  {
    if doc.Some? then Some(ValueOf(doc.value)) else None
  }

  ghost predicate SeparateIn(doc: Document) {
    doc.Some? ==> Separate(doc.value)
  }

  /** The objects of the first `n` documents. */
  ghost function ObjectsOfAll(docs: seq<Document>, n: nat): set<object>
    requires n <= |docs|
  {
    set i, o | 0 <= i < n && o in ObjectsIn(docs[i]) :: o
  }

  ghost function ValuesOf(docs: seq<Document>): (r: seq<Option<Yaml>>)
    reads ObjectsOfAll(docs, |docs|)
    ensures |r| == |docs| && forall i | 0 <= i < |r| :: r[i] == ValueIn(docs[i])
  {
    if docs == [] then []
    else
      var most := docs[..|docs| - 1];
      assert ObjectsOfAll(most, |most|) <= ObjectsOfAll(docs, |docs|);
      ValuesOf(most) + [ValueIn(docs[|docs| - 1])]
  }

  /** Parsed one by one, the documents share nothing. */
  ghost predicate AllSeparate(docs: seq<Document>) {
    && (forall i | 0 <= i < |docs| :: SeparateIn(docs[i]))
    && (forall i, j | 0 <= i < |docs| && 0 <= j < |docs| && i != j :: ObjectsIn(docs[i]) !! ObjectsIn(docs[j]))
  }

  lemma {:induction false} RejectionStays(docs: seq<Option<Yaml>>, i: nat)
    requires i <= |docs| && FoldedDocuments(docs[..i]).None?
    ensures FoldedDocuments(docs).None?
    decreases |docs|
  {
    if i < |docs| {
      assert docs[..|docs| - 1][..i] == docs[..i];
      RejectionStays(docs[..|docs| - 1], i);
    } else {
      assert docs[..i] == docs;
    }
  }

  /** `if full_template`. */
  predicate IsFalse(doc: Document)
    reads ObjectsIn(doc)
    ensures IsFalse(doc) == CountsAsFalse(ValueIn(doc))
  {
    match doc
    case None => true
    case Some(DictNode(entries)) => EmptyIff(entries); entries == map[]
    case Some(ListNode(list)) => list.items == []
    case Some(SetNode(collection)) => collection.members == {}
    case Some(ScalarNode(value)) => value == 0
  }

  lemma EmptyIff(entries: map<string, Node>)
    ensures entries == map[] <==> ValueOf(DictNode(entries)) == Dict(map[])
  {
    assert ValueOf(DictNode(entries)).entries.Keys == entries.Keys;
    if entries != map[] {
      assert entries.Keys != {};
    }
  }

  /** The merging part of `render_templates`: each document into the result of those before it. */
  method MergeTemplates(docs: seq<Document>) returns (ok: bool, full: Document)
    requires AllSeparate(docs)
    modifies ObjectsOfAll(docs, |docs|)
    ensures match old(FoldedDocuments(ValuesOf(docs)))
            case None => !ok
            case Some(value) => ok && ValueIn(full) == value
  {
    ghost var values := ValuesOf(docs);
    full := None;
    NothingFolded(docs, values);
    hide FoldedTo, FoldedDocuments, SeparateIn, ObjectsIn, ValueIn, Separate, Objects, ValueOf;
    for i := 0 to |docs|
      invariant FoldedTo(docs, full, i, values)
    {
      FoldedIsOwn(docs, full, i, values);
      ok, full := MergeDocument(docs, full, i, values);
      if !ok {
        RejectionStays(values, i + 1);
        return;
      }
    }
    assert values[..|docs|] == values;
    FoldedIsOwn(docs, full, |docs|, values);
    ok := true;
  }

  /** The first `n` documents are merged, and the others are as they were. */
  ghost predicate FoldedTo(docs: seq<Document>, full: Document, n: nat, values: seq<Option<Yaml>>)
    requires n <= |docs| == |values|
    reads ObjectsIn(full), ObjectsOfAll(docs, |docs|)
  {
    && SeparateIn(full) && ObjectsIn(full) <= ObjectsOfAll(docs, n)
    && FoldedDocuments(values[..n]) == Some(ValueIn(full))
    && forall j | n <= j < |docs| :: ValueIn(docs[j]) == values[j]
  }

  lemma NothingFolded(docs: seq<Document>, values: seq<Option<Yaml>>)
    requires AllSeparate(docs) && values == ValuesOf(docs)
    ensures FoldedTo(docs, None, 0, values)
  {
    assert values[..0] == [];
  }

  lemma FoldedIsOwn(docs: seq<Document>, full: Document, n: nat, values: seq<Option<Yaml>>)
    requires n <= |docs| == |values| && FoldedTo(docs, full, n, values)
    ensures ObjectsIn(full) <= ObjectsOfAll(docs, |docs|)
    ensures FoldedDocuments(values[..n]) == Some(ValueIn(full))
  {
  }

  /** One document into the result so far. */
  method MergeDocument(docs: seq<Document>, full: Document, i: nat, ghost values: seq<Option<Yaml>>)
    returns (ok: bool, r: Document)
    requires i < |docs| == |values| && AllSeparate(docs)
    requires FoldedTo(docs, full, i, values)
    modifies ObjectsIn(full)
    ensures !ok ==> FoldedDocuments(values[..i + 1]).None?
    ensures ok ==> FoldedTo(docs, r, i + 1, values)
  {
    assert values[..i + 1][..i] == values[..i];
    assert ObjectsOfAll(docs, i + 1) == ObjectsOfAll(docs, i) + ObjectsIn(docs[i]);
    forall j | i <= j < |docs|
      ensures forall o <- ObjectsIn(docs[j]) :: allocated(o)
    {
      if docs[j].Some? {
        ObjectsExist(docs[j].value);
      }
    }
    ok, r := AddDocument(full, docs[i]);
  }

  /** What counts as false is replaced, dictionaries are merged, and anything else raises. */
  method AddDocument(full: Document, data: Document) returns (ok: bool, r: Document)
    requires SeparateIn(full) && SeparateIn(data) && ObjectsIn(full) !! ObjectsIn(data)
    modifies ObjectsIn(full)
    ensures match old(Added(ValueIn(full), ValueIn(data)))
            case None => !ok
            case Some(value) => ok && ValueIn(r) == value
    ensures ok ==> SeparateIn(r) && ObjectsIn(r) <= ObjectsIn(full) + ObjectsIn(data)
  {
    if IsFalse(full) {
      return true, data;
    }
    if data.None? || !data.value.DictNode? {
      return false, None;
    }
    var additions := data.value.entries;
    EmptyIff(additions);
    match full.value {
      case DictNode(base) =>
        var merged := MergeDictionaries(base, additions);
        ok, r := merged.Some?, if merged.Some? then Some(DictNode(merged.value)) else None;
      case ListNode(_) =>
        ok, r := additions == map[], full;
      case SetNode(_) =>
        ok, r := additions == map[], full;
      case ScalarNode(_) =>
        ok, r := false, None;
    }
  }
}
