/** The vector database (backend/vdb/db.rs): a map from collection name to
    collection. The canister keeps one instance in a thread-local `RefCell`;
    here it is one `Database` object. */
module VdbDatabase {
  import opened Base
  import opened VdbError
  import opened VdbCollection

  /** `sort_by_key(|doc| doc.created_at)`, applied to the file names of the
      documents: the names come back ordered by their document's creation
      time. */
  method SortByCreatedAt(docs: map<string, DocMetadata>, names: seq<string>) returns (sorted: seq<string>)
    requires forall i :: 0 <= i < |names| ==> names[i] in docs
    requires Distinct(names)
    ensures multiset(sorted) == multiset(names) && Distinct(sorted)
    ensures forall i :: 0 <= i < |sorted| ==> sorted[i] in docs
    ensures forall i, j :: 0 <= i < j < |sorted| ==> docs[sorted[i]].createdAt <= docs[sorted[j]].createdAt
  {
    sorted := [];
    var n := 0;
    while n < |names|
      invariant 0 <= n <= |names|
      invariant multiset(sorted) == multiset(names[..n]) && SortedNames(docs, sorted)
    {
      var x := names[n];
      assert x !in sorted by {
        assert x !in names[..n];
        assert x !in multiset(names[..n]);
      }
      var p := InsertionPoint(docs, sorted, x);
      InsertKeepsOrder(docs, sorted, p, x);
      InsertAddsOne(sorted, p, x);
      assert names[..n + 1] == names[..n] + [x];
      sorted := sorted[..p] + [x] + sorted[p..];
      n := n + 1;
    }
    assert names[..n] == names;
  }

  /** The position after every entry created no later than `x`: where a
      stable sort puts `x` among the names already sorted. */
  method InsertionPoint(docs: map<string, DocMetadata>, sorted: seq<string>, x: string) returns (p: nat)
    requires x in docs && SortedNames(docs, sorted)
    ensures p <= |sorted|
    ensures forall i :: 0 <= i < p ==> docs[sorted[i]].createdAt <= docs[x].createdAt
    ensures p < |sorted| ==> docs[x].createdAt < docs[sorted[p]].createdAt
  {
    p := 0;
    while p < |sorted| && docs[sorted[p]].createdAt <= docs[x].createdAt
      invariant 0 <= p <= |sorted|
      invariant forall i :: 0 <= i < p ==> docs[sorted[i]].createdAt <= docs[x].createdAt
    {
      p := p + 1;
    }
  }

  /** Distinct names of stored documents, ordered by creation time. */
  ghost predicate SortedNames(docs: map<string, DocMetadata>, s: seq<string>)
  {
    && Distinct(s)
    && (forall i :: 0 <= i < |s| ==> s[i] in docs)
    && (forall i, j :: 0 <= i < j < |s| ==> docs[s[i]].createdAt <= docs[s[j]].createdAt)
  }

  /** Putting `x` after every entry not later than it, and before the first
      later one, keeps a duplicate-free name list sorted. */
  lemma InsertKeepsOrder(docs: map<string, DocMetadata>, s: seq<string>, p: nat, x: string)
    requires x in docs && x !in s && p <= |s| && SortedNames(docs, s)
    requires forall i :: 0 <= i < p ==> docs[s[i]].createdAt <= docs[x].createdAt
    requires p < |s| ==> docs[x].createdAt < docs[s[p]].createdAt
    ensures SortedNames(docs, s[..p] + [x] + s[p..])
  {
    var t := s[..p] + [x] + s[p..];
    assert forall i :: 0 <= i < |t| ==> t[i] == (if i < p then s[i] else if i == p then x else s[i - 1]);
  }

  /** Inserting one element anywhere adds it to the multiset. */
  lemma InsertAddsOne<T>(s: seq<T>, p: nat, x: T)
    requires p <= |s|
    ensures multiset(s[..p] + [x] + s[p..]) == multiset(s) + multiset{x}
  {
    assert s == s[..p] + s[p..];
  }

  class Database {
    var collections: map<string, Collection>

    /** Every collection is valid, and no collection object is shared by two
        names (the Rust map owns its values). */
    ghost predicate Valid()
      reads this, collections.Values
    {
      && (forall n :: n in collections ==> collections[n].Valid())
      && (forall n, m :: n in collections && m in collections && n != m ==> collections[n] != collections[m])
    }

    /** The value of the database: each name with its collection's value. */
    ghost function State(): map<string, CollectionState>
      reads this, collections.Values
    {
      map n | n in collections :: collections[n].State()
    }

    constructor ()
      ensures Valid() && collections == map[] && State() == map[]
    {
      collections := map[];
    }

    /** `create_collection`: refuses a name already in use; otherwise adds a
        new, empty collection of the given dimension under it. */
    method CreateCollection(name: string, dimension: nat, now: u64) returns (r: Result<(), Error>)
      requires Valid()
      modifies this
      ensures Valid()
      ensures r == if name in old(collections) then Err(UniqueViolation) else Ok(())
      ensures r.Err? ==> collections == old(collections) && State() == old(State())
      ensures r.Ok? ==>
        && name in collections && fresh(collections[name])
        && collections == old(collections)[name := collections[name]]
        && State() == old(State())[name := New([], [], dimension, now)]
    {
      if name in collections {
        return Err(UniqueViolation);
      }
      var c := new Collection([], [], dimension, now);
      ghost var before := collections;
      collections := collections[name := c];
      assert State().Keys == old(State())[name := c.State()].Keys;
      forall n | n in collections
        ensures State()[n] == old(State())[name := c.State()][n]
      {
        if n != name {
          assert collections[n] == before[n];
        }
      }
      assert State() == old(State())[name := c.State()];
      r := Ok(());
    }

    /** `insert_into_collection`: copies the first `|keys|` points and values
        (the loop indexes `values[i]` directly, so there must be at least as
        many values as keys) and appends them, with the metadata, to the named
        collection. */
    method InsertIntoCollection(name: string, keys: seq<Point>, values: seq<string>, fileName: string,
                                title: string, fileType: string, fileSize: u64, createdAt: u64)
      returns (r: Result<(), Error>)
      requires Valid()
      requires name in collections ==> |keys| <= |values|
      modifies collections.Values
      ensures Valid() && collections == old(collections)
      ensures r == if name in collections then Ok(()) else Err(NotFound)
      ensures State() == if name !in collections then old(State())
        else old(State())[name := Appended(old(State())[name], keys, values[..|keys|], fileName, title, fileType, fileSize, createdAt)]
    {
      if name !in collections {
        return Err(NotFound);
      }
      var c := collections[name];
      var points: seq<Point> := [];
      var copied: seq<string> := [];
      var i := 0;
      while i < |keys|
        invariant 0 <= i <= |keys|
        invariant points == keys[..i] && copied == values[..i]
      {
        points := points + [keys[i]];
        copied := copied + [values[i]];
        i := i + 1;
      }
      assert points == keys;
      var appended := c.Append(points, copied, fileName, title, fileType, fileSize, createdAt);
      assert forall n :: n in collections && n != name ==> collections[n] != c;
      assert State() == old(State())[name := c.State()];
      r := Ok(());
    }

    /** `build_index`: regenerates the named collection's index. */
    method BuildIndex(name: string) returns (r: Result<(), Error>)
      requires Valid()
      modifies collections.Values
      ensures Valid() && collections == old(collections)
      ensures r == if name in collections then Ok(()) else Err(NotFound)
      ensures State() == if name !in collections then old(State())
        else old(State())[name := Indexed(old(State())[name])]
    {
      if name !in collections {
        return Err(NotFound);
      }
      var c := collections[name];
      c.BuildIndex();
      assert forall n :: n in collections && n != name ==> collections[n] != c;
      assert State() == old(State())[name := c.State()];
      r := Ok(());
    }

    /** `query`: a missing collection and a query vector of the wrong length
        are refused with their messages; otherwise the best `limit` hits. */
    method Query(name: string, q: Point, limit: int, search: Search) returns (r: Result<seq<Hit>, string>)
      ensures name !in collections ==> r == Err(Message(NotFound))
      ensures name in collections && |q| != collections[name].dimension ==> r == Err("query malformed")
      ensures name in collections && |q| == collections[name].dimension ==>
        var all := search(collections[name].inner, q);
        && r.Ok?
        && |r.value| == (if limit <= 0 then 0 else if limit < |all| then limit else |all|)
        && r.value == all[..|r.value|]
    {
      if name !in collections {
        return Err(Message(NotFound));
      }
      var c := collections[name];
      if |q| != c.dimension {
        return Err("query malformed");
      }
      var hits := c.Query(q, search, limit);
      r := Ok(hits);
    }

    /** `delete_collection`: removes the name if present, otherwise NotFound
        and nothing changes. */
    method DeleteCollection(name: string) returns (r: Result<(), Error>)
      requires Valid()
      modifies this
      ensures Valid()
      ensures r == if name in old(collections) then Ok(()) else Err(NotFound)
      ensures collections == old(collections) - {name}
      ensures State() == old(State()) - {name}
    {
      if name in collections {
        collections := collections - {name};
        r := Ok(());
      } else {
        r := Err(NotFound);
      }
    }

    /** `get_all_collections`: every collection name once, in the map's order. */
    method GetAllCollections() returns (names: seq<string>)
      ensures Enumerates(collections.Keys, names)
      ensures |names| == |collections|
    {
      names := [];
      var rest := collections.Keys;
      while rest != {}
        invariant rest <= collections.Keys
        invariant Enumerates(collections.Keys - rest, names)
        decreases rest
      {
        var name :| name in rest;
        names := names + [name];
        rest := rest - {name};
      }
      EnumerationLength(collections.Keys, names);
    }

    /** `get_docs`: every document of the collection exactly once, ordered by
        `created_at`; `order` is the file name each is stored under. */
    method GetDocs(name: string) returns (r: Result<seq<DocMetadata>, Error>, ghost order: seq<string>)
      ensures name !in collections ==> r == Err(NotFound)
      ensures name in collections ==>
        && r.Ok?
        && Lists(collections[name].docs, collections[name].docs.Keys, r.value, order)
        && SortedByCreatedAt(r.value)
    {
      if name !in collections {
        return Err(NotFound), [];
      }
      var docs := collections[name].docs;
      var names: seq<string> := [];
      var rest := docs.Keys;
      while rest != {}
        invariant rest <= docs.Keys
        invariant Enumerates(docs.Keys - rest, names)
        decreases rest
      {
        var fileName :| fileName in rest;
        names := names + [fileName];
        rest := rest - {fileName};
      }
      assert docs.Keys - rest == docs.Keys;
      var sorted := SortByCreatedAt(docs, names);
      forall x | x in docs.Keys ensures x in sorted {
        assert x in names;
        assert x in multiset(names);
      }
      var list := seq(|sorted|, i requires 0 <= i < |sorted| => docs[sorted[i]]);
      r, order := Ok(list), sorted;
    }

    /** `get_docs_by_query`: the documents of the collection that match every
        supplied filter. */
    method GetDocsByQuery(name: string, q: CollectionQuery) returns (r: Result<seq<DocMetadata>, Error>, ghost matched: seq<string>)
      ensures name !in collections ==> r == Err(NotFound)
      ensures name in collections ==>
        && r.Ok?
        && Lists(collections[name].docs, MatchingNames(collections[name].docs, q), r.value, matched)
    {
      if name !in collections {
        return Err(NotFound), [];
      }
      var found;
      found, matched := collections[name].Find(q);
      r := Ok(found);
    }

    /** `remove_document_from_collection`: NotFound when the collection or
        the file is missing; otherwise drops the file's metadata and
        regenerates the index. */
    method RemoveDocumentFromCollection(name: string, fileName: string) returns (r: Result<(), Error>)
      requires Valid()
      modifies collections.Values
      ensures Valid() && collections == old(collections)
      ensures r == if name in collections && fileName in old(collections[name].docs) then Ok(()) else Err(NotFound)
      ensures State() == if r.Err? then old(State())
        else old(State())[name := Indexed(Removed(old(State())[name], fileName))]
    {
      if name !in collections {
        return Err(NotFound);
      }
      var c := collections[name];
      if fileName !in c.docs {
        return Err(NotFound);
      }
      var removed := c.Remove(fileName);
      c.BuildIndex();
      assert forall n :: n in collections && n != name ==> collections[n] != c;
      assert State() == old(State())[name := c.State()];
      r := Ok(());
    }
  }
}
