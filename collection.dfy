/** One user's collection in the vector store (backend/vdb/collection.rs):
    document metadata keyed by file name, a document counter, the embedding
    points with the text stored beside each, and the nearest-neighbour index
    generated from them. */
module VdbCollection {
  import opened Base

  /** One 32-bit float held as its bit pattern. Nothing here computes with
      floats, so the bits are all the model needs. */
  type F32 = x: int | 0 <= x < 0x1_0000_0000

  /** An embedding vector (`Vector` of the index module). */
  type Point = seq<F32>

  /** One search hit: the cosine similarity and the stored value. */
  type Hit = (F32, string)

  datatype DocMetadata = DocMetadata(
    title: string,
    fileName: string,
    fileType: Option<string>,
    fileSize: u64,
    createdAt: u64)

  /** A metadata filter; a `None` field does not constrain. */
  datatype CollectionQuery = CollectionQuery(
    title: Option<string>,
    fileName: Option<string>,
    fileType: Option<string>,
    dateFrom: Option<u64>,
    dateTo: Option<u64>)

  const NoFilter := CollectionQuery(None, None, None, None, None)

  /** The HNSW index, known only by the points and values it was generated
      from (`generate_index(keys, values)`). */
  datatype Index = Index(points: seq<Point>, values: seq<string>)

  /** A ranked nearest-neighbour search over an index: the hits for a query
      point, best first. It stands for `HnswMap::search` and `cos_sim`. */
  type Search = (Index, Point) -> seq<Hit>

  /** The value of a collection: every field of `Collection` and of its
      `Metadata`. */
  datatype CollectionState = CollectionState(
    dimension: nat,
    docs: map<string, DocMetadata>,
    count: u64,
    createdAt: u64,
    inner: Index,
    keys: seq<Point>,
    values: seq<string>)

  /** The metadata map's invariant: every document is stored under its own
      file name. */
  ghost predicate KeyedByFileName(docs: map<string, DocMetadata>)
  {
    forall k :: k in docs ==> docs[k].fileName == k
  }

  /** Whether `find` keeps the document stored under `fileName`: it passes
      every filter the query supplies. */
  predicate Matches(q: CollectionQuery, fileName: string, d: DocMetadata)
  {
    && (q.title.Some? ==> d.title == q.title.value)
    && (q.fileName.Some? ==> fileName == q.fileName.value)
    && (q.fileType.Some? ==> d.fileType == q.fileType)
    && (q.dateFrom.Some? ==> d.createdAt >= q.dateFrom.value)
    && (q.dateTo.Some? ==> d.createdAt <= q.dateTo.value)
  }

  /** The file names whose documents match the query. */
  ghost function MatchingNames(docs: map<string, DocMetadata>, q: CollectionQuery): set<string>
  {
    set k | k in docs && Matches(q, k, docs[k])
  }

  /** `list` holds the documents stored under the names of `names`, each once,
      in the order `order` gives those names. */
  ghost predicate Lists(docs: map<string, DocMetadata>, names: set<string>, list: seq<DocMetadata>, order: seq<string>)
  {
    && names <= docs.Keys
    && Enumerates(names, order)
    && |list| == |order|
    && (forall i :: 0 <= i < |list| ==> order[i] in docs && list[i] == docs[order[i]])
  }

  ghost predicate SortedByCreatedAt(list: seq<DocMetadata>)
  {
    forall i, j :: 0 <= i < j < |list| ==> list[i].createdAt <= list[j].createdAt
  }

  /** `Collection::new(keys, values, dimension)` at time `now`. */
  function New(keys: seq<Point>, values: seq<string>, dimension: nat, now: u64): CollectionState
  {
    CollectionState(dimension, map[], 0, now, Index(keys, values), keys, values)
  }

  /** `append`: the points and values are added at the end, the metadata is
      stored under the file name (replacing any earlier entry) and the counter
      goes up by one, wrapping as a release-mode `u64` does. */
  function Appended(s: CollectionState, ks: seq<Point>, vs: seq<string>,
                    fileName: string, title: string, fileType: string, fileSize: u64, createdAt: u64): CollectionState
  {
    s.(keys := s.keys + ks,
       values := s.values + vs,
       docs := s.docs[fileName := DocMetadata(title, fileName, Some(fileType), fileSize, createdAt)],
       count := (s.count + 1) % U64_MODULUS)
  }

  /** `remove`: only the metadata entry goes; points, values and the counter stay. */
  function Removed(s: CollectionState, fileName: string): CollectionState
  {
    s.(docs := s.docs - {fileName})
  }

  /** `build_index`: the index is regenerated from the current points and values. */
  function Indexed(s: CollectionState): CollectionState
  {
    s.(inner := Index(s.keys, s.values))
  }

  /** A new collection has no documents, a zero counter and the given dimension. */
  lemma NewIsEmpty(keys: seq<Point>, values: seq<string>, dimension: nat, now: u64)
    ensures var s := New(keys, values, dimension, now);
      s.docs == map[] && s.count == 0 && s.dimension == dimension && KeyedByFileName(s.docs)
  {
  }

  /** After `append`, the file's entry holds exactly the new metadata, every
      other entry is as it was, the old points and values are a prefix of the
      new ones, and (short of wrapping) the counter is one higher, even when
      the file name was already present. */
  lemma {:induction false} AppendedSpec(s: CollectionState, ks: seq<Point>, vs: seq<string>,
                                        fileName: string, title: string, fileType: string, fileSize: u64, createdAt: u64)
    requires s.count < U64_MODULUS - 1
    ensures var t := Appended(s, ks, vs, fileName, title, fileType, fileSize, createdAt);
      && t.docs.Keys == s.docs.Keys + {fileName}
      && t.docs[fileName] == DocMetadata(title, fileName, Some(fileType), fileSize, createdAt)
      && (forall k :: k in s.docs && k != fileName ==> t.docs[k] == s.docs[k])
      && t.keys[..|s.keys|] == s.keys && t.values[..|s.values|] == s.values
      && t.count == s.count + 1
      && t.dimension == s.dimension && t.inner == s.inner
  {
    var t := Appended(s, ks, vs, fileName, title, fileType, fileSize, createdAt);
    assert t.keys[..|s.keys|] == s.keys;
    assert t.values[..|s.values|] == s.values;
  }

  /** `append` keeps every document under its own file name. */
  lemma AppendedKeyed(s: CollectionState, ks: seq<Point>, vs: seq<string>,
                      fileName: string, title: string, fileType: string, fileSize: u64, createdAt: u64)
    requires KeyedByFileName(s.docs)
    ensures KeyedByFileName(Appended(s, ks, vs, fileName, title, fileType, fileSize, createdAt).docs)
  {
  }

  /** `remove` deletes exactly the file's entry and touches nothing else;
      removing what append stored under a fresh name restores the metadata. */
  lemma {:induction false} RemovedSpec(s: CollectionState, fileName: string)
    ensures var t := Removed(s, fileName);
      && t.docs.Keys == s.docs.Keys - {fileName}
      && (forall k :: k in t.docs ==> t.docs[k] == s.docs[k])
      && t.keys == s.keys && t.values == s.values && t.count == s.count && t.inner == s.inner
      && (KeyedByFileName(s.docs) ==> KeyedByFileName(t.docs))
  {
  }

  lemma {:induction false} RemoveUndoesAppend(s: CollectionState, ks: seq<Point>, vs: seq<string>,
                                              fileName: string, title: string, fileType: string, fileSize: u64, createdAt: u64)
    requires fileName !in s.docs
    ensures Removed(Appended(s, ks, vs, fileName, title, fileType, fileSize, createdAt), fileName).docs == s.docs
  {
    var t := Removed(Appended(s, ks, vs, fileName, title, fileType, fileSize, createdAt), fileName);
    assert t.docs.Keys == s.docs.Keys;
  }

  /** With no filter supplied, every document matches. */
  lemma NoFilterMatchesAll(docs: map<string, DocMetadata>)
    ensures MatchingNames(docs, NoFilter) == docs.Keys
  {
  }

  /** A match never lies outside a supplied date range. */
  lemma MatchWithinDates(q: CollectionQuery, fileName: string, d: DocMetadata)
    requires Matches(q, fileName, d)
    ensures q.dateFrom.Some? ==> q.dateFrom.value <= d.createdAt
    ensures q.dateTo.Some? ==> d.createdAt <= q.dateTo.value
  {
  }

  /** A collection object. `metadata.docs`, `metadata.count` and
      `metadata.created_at` are the fields `docs`, `count` and `createdAt`. */
  class Collection {
    var dimension: nat
    var docs: map<string, DocMetadata>
    var count: u64
    var createdAt: u64
    var inner: Index
    var keys: seq<Point>
    var values: seq<string>

    ghost function State(): CollectionState
      reads this
    {
      CollectionState(dimension, docs, count, createdAt, inner, keys, values)
    }

    ghost predicate Valid()
      reads this
    {
      KeyedByFileName(docs)
    }

    /** `Collection::new`; the clock reading `ic_cdk::api::time()` is `now`. */
    constructor (keys: seq<Point>, values: seq<string>, dimension: nat, now: u64)
      ensures Valid() && State() == New(keys, values, dimension, now)
    {
      this.keys := keys;
      this.values := values;
      this.inner := Index(keys, values);
      this.dimension := dimension;
      this.count := 0;
      this.createdAt := now;
      this.docs := map[];
    }

    /** `find`: the documents that pass every filter of the query, in the
        (unspecified) iteration order of the metadata map. `matched` is the
        file name each result is stored under. */
    method Find(q: CollectionQuery) returns (results: seq<DocMetadata>, ghost matched: seq<string>)
      ensures Lists(docs, MatchingNames(docs, q), results, matched)
    {
      results, matched := [], [];
      var rest := docs.Keys;
      while rest != {}
        invariant rest <= docs.Keys
        invariant Lists(docs, MatchingNames(docs, q) - rest, results, matched)
        decreases rest
      {
        var fileName :| fileName in rest;
        var d := docs[fileName];
        rest := rest - {fileName};
        if q.title.Some? && d.title != q.title.value {
          continue;
        }
        if q.fileName.Some? && fileName != q.fileName.value {
          continue;
        }
        if q.fileType.Some? && d.fileType != q.fileType {
          continue;
        }
        if q.dateFrom.Some? && d.createdAt < q.dateFrom.value {
          continue;
        }
        if q.dateTo.Some? && d.createdAt > q.dateTo.value {
          continue;
        }
        results := results + [d];
        matched := matched + [fileName];
      }
    }

    /** `append`. The Rust method drains the caller's vectors into its own;
        the caller never uses them again. */
    method Append(ks: seq<Point>, vs: seq<string>, fileName: string, title: string,
                  fileType: string, fileSize: u64, createdAt: u64) returns (r: Result<(), string>)
      requires Valid()
      modifies this
      ensures Valid()
      ensures r == Ok(())
      ensures State() == Appended(old(State()), ks, vs, fileName, title, fileType, fileSize, createdAt)
    {
      keys := keys + ks;
      values := values + vs;
      docs := docs[fileName := DocMetadata(title, fileName, Some(fileType), fileSize, createdAt)];
      count := (count + 1) % U64_MODULUS;
      r := Ok(());
    }

    /** `query`: at most `limit` hits of the index search, in its order; the
        loop stops early when the search runs out. */
    method Query(key: Point, search: Search, limit: int) returns (hits: seq<Hit>)
      ensures var all := search(inner, key);
        |hits| == (if limit <= 0 then 0 else if limit < |all| then limit else |all|)
      ensures hits == search(inner, key)[..|hits|]
    {
      var all := search(inner, key);
      hits := [];
      var i := 0;
      while i < limit
        invariant 0 <= i && (limit > 0 ==> i <= limit) && (limit <= 0 ==> i == 0)
        invariant i <= |all| && hits == all[..i]
        decreases limit - i
      {
        if i == |all| {
          break;
        }
        hits := hits + [all[i]];
        i := i + 1;
      }
    }

    method BuildIndex()
      modifies this
      ensures State() == Indexed(old(State()))
    {
      inner := Index(keys, values);
    }

    /** `remove`: deletes only the metadata entry; the points and values of
        the file stay in the collection. */
    method Remove(fileName: string) returns (r: Result<(), string>)
      requires Valid()
      modifies this
      ensures Valid()
      ensures r == Ok(())
      ensures State() == Removed(old(State()), fileName)
    {
      docs := docs - {fileName};
      r := Ok(());
    }
  }
}
