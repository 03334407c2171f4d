/** Merging YAML trees (`merge_dictionaries` of gen/__init__.py). */
module Merge {
  import opened Wrappers

  datatype Yaml =
    | Dict(entries: map<string, Yaml>)
    | Items(items: seq<Yaml>)
    | Members(members: set<int>)
    | Scalar(value: int)

  /** Two values under one key can be merged: not two scalars, not even equal ones. */
  predicate Mergeable(x: Yaml, y: Yaml) {
    match (x, y)
    case (Dict(a), Dict(b)) => forall k <- a.Keys * b.Keys :: Mergeable(a[k], b[k])
    case (Items(_), Items(_)) => true
    case (Members(_), Members(_)) => true
    case _ => false
  }

  function Joined(x: Yaml, y: Yaml): Yaml
    requires Mergeable(x, y)
  {
    match (x, y)
    case (Dict(a), Dict(b)) =>
      Dict(map k | k in a.Keys + b.Keys ::
             if k !in b then a[k] else if k !in a then b[k] else Joined(a[k], b[k]))
    case (Items(a), Items(b)) => Items(a + b)
    case (Members(a), Members(b)) => Members(a + b)
  }

  /** A conflict anywhere rejects the whole merge. */
  function Merged(x: Option<Yaml>, y: Option<Yaml>): Option<Yaml> {
    if x.Some? && y.Some? && Mergeable(x.value, y.value) then Some(Joined(x.value, y.value)) else None
  }

  // ---------------------------------------------------------------- associativity

  /** Merging in either grouping is rejected alike, or gives the same tree. */
  predicate Associates(x: Yaml, y: Yaml, z: Yaml) {
    && (Mergeable(x, y) && Mergeable(Joined(x, y), z) <==> Mergeable(y, z) && Mergeable(x, Joined(y, z)))
    && (Mergeable(x, y) && Mergeable(Joined(x, y), z) ==> Joined(Joined(x, y), z) == Joined(x, Joined(y, z)))
  }

  lemma {:induction false} JoinAssociates(x: Yaml, y: Yaml, z: Yaml)
    ensures Associates(x, y, z)
    decreases x, y, z
  {
    match (x, y, z) {
      case (Dict(a), Dict(b), Dict(c)) =>
        forall k | k in a && k in b && k in c
          ensures Associates(a[k], b[k], c[k])
        {
          JoinAssociates(a[k], b[k], c[k]);
        }
        DictsAssociate(a, b, c);
      case (Items(a), Items(b), Items(c)) => assert a + b + c == a + (b + c);
      case (Members(a), Members(b), Members(c)) => assert a + b + c == a + (b + c);
      case _ =>
    }
  }

  lemma DictsAssociate(a: map<string, Yaml>, b: map<string, Yaml>, c: map<string, Yaml>)
    requires forall k | k in a && k in b && k in c :: Associates(a[k], b[k], c[k])
    ensures Associates(Dict(a), Dict(b), Dict(c))
  {
    DictsAcceptAlike(a, b, c);
    if Mergeable(Dict(a), Dict(b)) && Mergeable(Joined(Dict(a), Dict(b)), Dict(c)) {
      var one, other := Joined(Joined(Dict(a), Dict(b)), Dict(c)), Joined(Dict(a), Joined(Dict(b), Dict(c)));
      assert one.entries.Keys == other.entries.Keys;
      forall k | k in one.entries
        ensures one.entries[k] == other.entries[k]
      {
        if k in a && k in b && k in c {
          assert Associates(a[k], b[k], c[k]);
        }
      }
    }
  }

  lemma DictsAcceptAlike(a: map<string, Yaml>, b: map<string, Yaml>, c: map<string, Yaml>)
    requires forall k | k in a && k in b && k in c :: Associates(a[k], b[k], c[k])
    ensures Mergeable(Dict(a), Dict(b)) && Mergeable(Joined(Dict(a), Dict(b)), Dict(c))
       <==> Mergeable(Dict(b), Dict(c)) && Mergeable(Dict(a), Joined(Dict(b), Dict(c)))
  {
  }

  lemma MergeAssociates(x: Option<Yaml>, y: Option<Yaml>, z: Option<Yaml>)
    ensures Merged(Merged(x, y), z) == Merged(x, Merged(y, z))
  {
    if x.Some? && y.Some? && z.Some? {
      JoinAssociates(x.value, y.value, z.value);
    }
  }

  /** Some way of merging a sequence of trees two at a time. */
  datatype Grouping = One(tree: Yaml) | Two(left: Grouping, right: Grouping)

  function InOrder(g: Grouping): (trees: seq<Yaml>)
    ensures trees != []
  {
    match g
    case One(tree) => [tree]
    case Two(left, right) => InOrder(left) + InOrder(right)
  }

  function MergedAs(g: Grouping): Option<Yaml> {
    match g
    case One(tree) => Some(tree)
    case Two(left, right) => Merged(MergedAs(left), MergedAs(right))
  }

  /** The order of the source: one tree after the other into the result so far. */
  function Folded(trees: seq<Yaml>): Option<Yaml>
    requires trees != []
  {
    if |trees| == 1 then Some(trees[0])
    else Merged(Folded(trees[..|trees| - 1]), Some(trees[|trees| - 1]))
  }

  lemma {:induction false} FoldInTwoParts(a: seq<Yaml>, b: seq<Yaml>)
    requires a != [] && b != []
    ensures Folded(a + b) == Merged(Folded(a), Folded(b))
    decreases |b|
  {
    var last, most := b[|b| - 1], b[..|b| - 1];
    if |b| == 1 {
      assert (a + b)[..|a|] == a;
    } else {
      assert (a + b)[..|a + b| - 1] == a + most;
      FoldInTwoParts(a, most);
      MergeAssociates(Folded(a), Folded(most), Some(last));
    }
  }

  /** However the merging is grouped, it gives what the fold gives: the same tree or a rejection. */
  lemma {:induction false} GroupingIsIrrelevant(g: Grouping)
    ensures MergedAs(g) == Folded(InOrder(g))
  {
    if g.Two? {
      GroupingIsIrrelevant(g.left);
      GroupingIsIrrelevant(g.right);
      FoldInTwoParts(InOrder(g.left), InOrder(g.right));
    }
  }

  // ---------------------------------------------------------------- what is where afterwards

  /** The value at the end of a path of keys. */
  function At(tree: Yaml, path: seq<string>): Option<Yaml>
    decreases |path|
  {
    if path == [] then Some(tree)
    else if tree.Dict? && path[0] in tree.entries then At(tree.entries[path[0]], path[1..])
    else None
  }

  /** Every path of either tree is in the merged one, and no other. */
  lemma {:induction false} MergedAt(x: Yaml, y: Yaml, path: seq<string>)
    requires Mergeable(x, y)
    ensures match (At(x, path), At(y, path))
            case (None, other) => At(Joined(x, y), path) == other
            case (one, None) => At(Joined(x, y), path) == one
            case (Some(one), Some(other)) => Mergeable(one, other) && At(Joined(x, y), path) == Some(Joined(one, other))
    decreases |path|
  {
    if path != [] && x.Dict? && path[0] in x.entries && path[0] in y.entries {
      MergedAt(x.entries[path[0]], y.entries[path[0]], path[1..]);
    }
  }

  /** Two dictionaries, two lists or two sets. */
  predicate SameKind(x: Yaml, y: Yaml) {
    (x.Dict? && y.Dict?) || (x.Items? && y.Items?) || (x.Members? && y.Members?)
  }

  /** At the end of the path both have a value, and these cannot be merged. */
  predicate ConflictAt(x: Yaml, y: Yaml, path: seq<string>) {
    At(x, path).Some? && At(y, path).Some? && !SameKind(At(x, path).value, At(y, path).value)
  }

  /** Two trees can be merged exactly when what they have at one path is always of one kind, and no
      scalar. */
  lemma {:induction false} MergeableIff(x: Yaml, y: Yaml)
    ensures Mergeable(x, y) <==> forall path :: !ConflictAt(x, y, path)
  {
    if !Mergeable(x, y) {
      var path := FindConflict(x, y);
    }
    forall path | ConflictAt(x, y, path)
      ensures !Mergeable(x, y)
    {
      ConflictRejects(x, y, path);
    }
  }

  lemma {:induction false} FindConflict(x: Yaml, y: Yaml) returns (path: seq<string>)
    requires !Mergeable(x, y)
    ensures ConflictAt(x, y, path)
    decreases x
  {
    path := [];
    if x.Dict? && y.Dict? {
      var k :| k in x.entries.Keys * y.entries.Keys && !Mergeable(x.entries[k], y.entries[k]);
      var rest := FindConflict(x.entries[k], y.entries[k]);
      path := [k] + rest;
      assert path[1..] == rest;
    }
  }

  lemma {:induction false} ConflictRejects(x: Yaml, y: Yaml, path: seq<string>)
    requires ConflictAt(x, y, path)
    ensures !Mergeable(x, y)
    decreases |path|
  {
    if path != [] {
      var a, b := x.entries[path[0]], y.entries[path[0]];
      assert ConflictAt(a, b, path[1..]);
      ConflictRejects(a, b, path[1..]);
      assert path[0] in x.entries.Keys * y.entries.Keys;
    }
  }

  /** The lists that the trees have at a path, one after the other. */
  function ListsAt(trees: seq<Yaml>, path: seq<string>): seq<Yaml> {
    if trees == [] then []
    else
      ListsAt(trees[..|trees| - 1], path)
      + match At(trees[|trees| - 1], path) case Some(Items(items)) => items case _ => []
  }

  predicate AnyAt(trees: seq<Yaml>, path: seq<string>) {
    trees != [] && (At(trees[|trees| - 1], path).Some? || AnyAt(trees[..|trees| - 1], path))
  }

  /** Folding keeps every path, and where there is a list, it is the trees' lists in their order. */
  lemma {:induction false} FoldedAt(trees: seq<Yaml>, path: seq<string>)
    requires trees != [] && Folded(trees).Some?
    ensures At(Folded(trees).value, path).Some? <==> AnyAt(trees, path)
    ensures match At(Folded(trees).value, path)
            case Some(Items(items)) => items == ListsAt(trees, path)
            case _ => ListsAt(trees, path) == []
    decreases |trees|
  {
    var last, most := trees[|trees| - 1], trees[..|trees| - 1];
    if |trees| == 1 {
      assert most == [];
      assert ListsAt([], path) == [];
    } else {
      FoldedAt(most, path);
      MergedAt(Folded(most).value, last, path);
      if At(last, path).None? {
        assert ListsAt(most, path) + [] == ListsAt(most, path);
      }
    }
  }

  // ---------------------------------------------------------------- whole documents

  /** Python takes these for false; `Scalar(0)` stands for every scalar of that kind. */
  predicate CountsAsFalse(doc: Option<Yaml>) {
    doc in {None, Some(Dict(map[])), Some(Items([])), Some(Members({})), Some(Scalar(0))}
  }

  /** The next document of a file, into the result so far: what counts as false is replaced. A list
      or set has no keys to merge into, so only an empty dictionary passes; anything else raises. */
  function Added(full: Option<Yaml>, data: Option<Yaml>): Option<Option<Yaml>> {
    if CountsAsFalse(full) then Some(data)
    else if data.None? || !data.value.Dict? then None
    else
      match full.value
      case Dict(_) => if Mergeable(full.value, data.value) then Some(Some(Joined(full.value, data.value))) else None
      case Items(_) => if data.value.entries == map[] then Some(full) else None
      case Members(_) => if data.value.entries == map[] then Some(full) else None
      case Scalar(_) => None
  }

  function FoldedDocuments(docs: seq<Option<Yaml>>): Option<Option<Yaml>> {
    if docs == [] then Some(None)
    else
      match FoldedDocuments(docs[..|docs| - 1])
      case None => None
      case Some(full) => Added(full, docs[|docs| - 1])
  }

  function Documents(trees: seq<Yaml>): seq<Option<Yaml>> {
    seq(|trees|, i requires 0 <= i < |trees| => Some(trees[i]))
  }

  /** For dictionaries this is the fold of the merge. */
  lemma {:induction false} DictionariesFold(trees: seq<Yaml>)
    requires trees != [] && forall i | 0 <= i < |trees| :: trees[i].Dict?
    ensures FoldedDocuments(Documents(trees))
         == match Folded(trees) case None => None case Some(tree) => Some(Some(tree))
    ensures Folded(trees).Some? ==> Folded(trees).value.Dict?
    decreases |trees|
  {
    var last, most := trees[|trees| - 1], trees[..|trees| - 1];
    assert Documents(trees)[..|trees| - 1] == Documents(most);
    if most == [] {
      assert Documents(most) == [];
    } else {
      DictionariesFold(most);
      if Folded(most) == Some(Dict(map[])) {
        EmptyJoins(last);
      }
    }
  }

  lemma EmptyJoins(tree: Yaml)
    requires tree.Dict?
    ensures Merged(Some(Dict(map[])), Some(tree)) == Some(tree)
  {
    assert Joined(Dict(map[]), tree).entries == tree.entries;
  }

  /** A document that is no dictionary, null included, takes the place of a result that counts as
      false, and otherwise rejects the file. */
  lemma OtherDocument(docs: seq<Option<Yaml>>, data: Option<Yaml>)
    requires FoldedDocuments(docs).Some? && !(data.Some? && data.value.Dict?)
    ensures FoldedDocuments(docs + [data])
         == if CountsAsFalse(FoldedDocuments(docs).value) then Some(data) else None
  {
    assert (docs + [data])[..|docs|] == docs;
  }

  /** A dictionary after a result that is none passes only if there is nothing in it, and not after a
      scalar. */
  lemma DictionaryAfterOther(docs: seq<Option<Yaml>>, entries: map<string, Yaml>)
    requires FoldedDocuments(docs).Some? && !CountsAsFalse(FoldedDocuments(docs).value)
    requires !FoldedDocuments(docs).value.value.Dict?
    ensures FoldedDocuments(docs + [Some(Dict(entries))])
         == if entries == map[] && !FoldedDocuments(docs).value.value.Scalar? then FoldedDocuments(docs) else None
  {
    var longer := docs + [Some(Dict(entries))];
    assert longer[..|docs|] == docs;
    DictionaryAdded(FoldedDocuments(docs).value.value, entries);
  }

  lemma DictionaryAdded(full: Yaml, entries: map<string, Yaml>)
    requires !CountsAsFalse(Some(full)) && !full.Dict?
    ensures Added(Some(full), Some(Dict(entries)))
         == if entries == map[] && !full.Scalar? then Some(Some(full)) else None
  {
    match full {
      case Items(_) =>
      case Members(_) =>
      case Scalar(_) =>
    }
  }
}
