/** The canister's document endpoints (backend/lib.rs). Each endpoint takes
    the database, the caller (`ic_cdk::caller()`) and, where it reads the
    clock, the time (`ic_cdk::api::time()`, constant within one message) as
    parameters. A caller's documents live in the collection named by the
    caller's principal. */
module Canister {
  import opened Base
  import opened VdbError
  import opened VdbCollection
  import opened VdbDatabase
  import Utf8

  /** A principal, by its textual form. */
  datatype Principal = Principal(text: string)

  /** `Principal::anonymous()`. */
  const Anonymous := Principal("2vxsx-fae")

  /** The dimension of the collection created on a user's first upload. */
  const DEFAULT_DIMENSION: nat := 1000
  const DEFAULT_LIMIT: nat := 10
  const DEFAULT_OFFSET: nat := 0

  /** `usize` on the canister's 32-bit WebAssembly target. */
  const USIZE_MODULUS: int := 0x1_0000_0000
  type usize = x: int | 0 <= x < USIZE_MODULUS

  /** The file types `upload_file` accepts. */
  predicate IsSupportedFileType(fileType: string)
  {
    fileType == "pdf" || fileType == "txt" || fileType == "docs" || fileType == "image"
  }

  /** The bits of `f32::from_le_bytes([b0, b1, b2, b3])`. */
  function F32FromLeBytes(b0: byte, b1: byte, b2: byte, b3: byte): F32
  {
    b0 + 256 * b1 + 0x1_0000 * b2 + 0x100_0000 * b3
  }

  /** `data.chunks_exact(4).map(f32::from_le_bytes)`: one float per whole
      group of four bytes; a shorter tail is dropped. */
  function BytesToVector(data: seq<byte>): (v: Point)
    ensures |v| == |data| / 4
    ensures forall i :: 0 <= i < |v| ==>
      v[i] == F32FromLeBytes(data[4 * i], data[4 * i + 1], data[4 * i + 2], data[4 * i + 3])
    decreases |data|
  {
    if |data| < 4 then []
    else
      var rest := BytesToVector(data[4..]);
      assert forall i :: 1 <= i < |rest| + 1 ==> data[4..][4 * (i - 1)] == data[4 * i];
      [F32FromLeBytes(data[0], data[1], data[2], data[3])] + rest
  }

  /** `data.len() as u64`: the length truncated to 64 bits, which changes
      nothing for any buffer a canister can hold. */
  function FileSize(data: seq<byte>): (size: u64)
    ensures |data| < U64_MODULUS ==> size == |data|
  {
    |data| % U64_MODULUS
  }

  /** The little-endian bytes of a vector (`f32::to_le_bytes` per element). */
  function VectorToBytes(v: Point): (data: seq<byte>)
    ensures |data| == 4 * |v|
  {
    if v == [] then []
    else
      var x := v[0];
      [x % 256, x / 256 % 256, x / 0x1_0000 % 256, x / 0x100_0000] + VectorToBytes(v[1..])
  }

  lemma LeBytesOfWord(x: F32)
    ensures F32FromLeBytes(x % 256, x / 256 % 256, x / 0x1_0000 % 256, x / 0x100_0000) == x
  {
    assert x / 256 == x / 256 % 256 + 256 * ((x / 256) / 256);
    assert (x / 256) / 256 == x / 0x1_0000;
    assert x / 0x1_0000 == x / 0x1_0000 % 256 + 256 * ((x / 0x1_0000) / 256);
    assert (x / 0x1_0000) / 256 == x / 0x100_0000;
  }

  /** Decoding the bytes of a vector gives the vector back. */
  lemma {:induction false} VectorRoundTrip(v: Point)
    ensures BytesToVector(VectorToBytes(v)) == v
  {
    if v != [] {
      LeBytesOfWord(v[0]);
      assert VectorToBytes(v)[4..] == VectorToBytes(v[1..]);
      VectorRoundTrip(v[1..]);
      assert [v[0]] + v[1..] == v;
    }
  }

  /** The collection an upload goes into: the caller's, or a new one of the
      default dimension when the caller has none yet. */
  function UploadTarget(before: map<string, CollectionState>, name: string, now: u64): CollectionState
  {
    if name in before then before[name] else New([], [], DEFAULT_DIMENSION, now)
  }

  /** The caller's collection after a successful upload or update: the
      document appended with its one vector and its text, then the index
      rebuilt. */
  function WithDocument(s: CollectionState, fileType: string, title: string, filename: string,
                        data: seq<byte>, text: string, now: u64): CollectionState
  {
    Indexed(Appended(s, [BytesToVector(data)], [text], filename, title, fileType, FileSize(data), now))
  }

  /** After a successful upload the file's metadata is exactly the uploaded
      one, every other document of the caller is untouched, and a first
      upload creates a collection of dimension 1000. */
  lemma UploadStoresDocument(before: map<string, CollectionState>, name: string, fileType: string, title: string,
                             filename: string, data: seq<byte>, text: string, now: u64)
    ensures var base := UploadTarget(before, name, now);
      var after := WithDocument(base, fileType, title, filename, data, text, now);
      && after.docs == base.docs[filename := DocMetadata(title, filename, Some(fileType), FileSize(data), now)]
      && after.keys == base.keys + [BytesToVector(data)] && after.values == base.values + [text]
      && after.inner == Index(after.keys, after.values)
      && (name !in before ==> after.dimension == DEFAULT_DIMENSION && after.docs.Keys == {filename})
  {
  }

  /** The two steps upload and update share once the caller's collection
      exists: insert the document with its one vector, then rebuild the
      index. */
  method StoreDocument(db: Database, name: string, fileType: string, title: string, filename: string,
                       data: seq<byte>, text: string, now: u64)
    requires db.Valid() && name in db.collections
    modifies db.collections.Values
    ensures db.Valid() && db.collections == old(db.collections)
    ensures db.State() == old(db.State())[name := WithDocument(old(db.State())[name], fileType, title, filename, data, text, now)]
  {
    ghost var s0 := db.State();
    var vector := BytesToVector(data);
    assert [text][..|[vector]|] == [text];
    var inserted := db.InsertIntoCollection(name, [vector], [text], filename, title, fileType, FileSize(data), now);
    ghost var s1 := db.State();
    assert s1 == s0[name := Appended(s0[name], [vector], [text], filename, title, fileType, FileSize(data), now)];
    var built := db.BuildIndex(name);
    UpdateTwice(s0, name, s1[name], Indexed(s1[name]));
  }

  /** `upload_file`. Refuses an anonymous caller, then an unsupported file
      type, then bytes that are not UTF-8, in that order and before touching
      the database; otherwise stores the document in the caller's collection,
      creating it first if need be. */
  method UploadFile(db: Database, caller: Principal, now: u64, fileType: string, title: string,
                    filename: string, data: seq<byte>) returns (r: Result<string, Error>)
    requires db.Valid()
    modifies db, db.collections.Values
    ensures db.Valid()
    ensures caller == Anonymous ==> r == Err(Unauthorized)
    ensures caller != Anonymous && !IsSupportedFileType(fileType) ==> r == Err(FileTypeNotSupported)
    ensures caller != Anonymous && IsSupportedFileType(fileType) && Utf8.Decode(data).None? ==>
      r == Err(InvalidInput)
    ensures r.Err? ==> db.collections == old(db.collections) && db.State() == old(db.State())
    ensures caller != Anonymous && IsSupportedFileType(fileType) && Utf8.Decode(data).Some? ==>
      && r == Ok("Doc " + filename + " upload success!")
      && db.State() == old(db.State())[caller.text :=
           WithDocument(UploadTarget(old(db.State()), caller.text, now), fileType, title, filename,
                        data, Utf8.Decode(data).value, now)]
  {
    if caller == Anonymous {
      return Err(Unauthorized);
    }
    var name := caller.text;
    if !IsSupportedFileType(fileType) {
      return Err(FileTypeNotSupported);
    }
    var decoded := Utf8.Decode(data);
    if decoded.None? {
      return Err(InvalidInput);
    }
    var content := decoded.value;
    ghost var target := UploadTarget(old(db.State()), name, now);
    if name !in db.collections {
      var created := db.CreateCollection(name, DEFAULT_DIMENSION, now);
    } else {
      UpdateSame(old(db.State()), name);
    }
    assert db.State() == old(db.State())[name := target];
    StoreDocument(db, name, fileType, title, filename, data, content, now);
    UpdateTwice(old(db.State()), name, target, WithDocument(target, fileType, title, filename, data, content, now));
    r := Ok("Doc " + filename + " upload success!");
  }

  /** The outcome of an update call: a reply, or a trap (a panic in the
      canister, which rolls the state back). */
  datatype Reply = Replied(result: Result<string, Error>) | Trapped

  /** The query `update_document` uses to see whether the file exists. */
  function FileNameQuery(filename: string): CollectionQuery
  {
    CollectionQuery(None, Some(filename), None, None, None)
  }

  /** Looking a file up by name finds it exactly when it is stored. */
  lemma FileNameQueryFinds(docs: map<string, DocMetadata>, filename: string, list: seq<DocMetadata>, order: seq<string>)
    requires Lists(docs, MatchingNames(docs, FileNameQuery(filename)), list, order)
    ensures list == [] <==> filename !in docs
  {
    if filename in docs {
      assert filename in MatchingNames(docs, FileNameQuery(filename));
      assert filename in order;
    } else {
      assert MatchingNames(docs, FileNameQuery(filename)) == {};
      EnumerationLength(MatchingNames(docs, FileNameQuery(filename)), order);
    }
  }

  /** An update replaces the file's metadata by the new one and leaves every
      other document alone: after it exactly one entry is stored under the
      file name, with the new title, type, size and time. The counter still
      goes up, because removing does not lower it. */
  lemma {:induction false} UpdateReplacesDocument(s: CollectionState, fileType: string, title: string,
                                                  filename: string, data: seq<byte>, text: string, now: u64)
    requires filename in s.docs
    ensures var t := WithDocument(Indexed(Removed(s, filename)), fileType, title, filename, data, text, now);
      && t.docs == s.docs[filename := DocMetadata(title, filename, Some(fileType), FileSize(data), now)]
      && t.docs.Keys == s.docs.Keys
      && t.count == (s.count + 1) % U64_MODULUS
      && t.keys == s.keys + [BytesToVector(data)]
  {
    var t := WithDocument(Indexed(Removed(s, filename)), fileType, title, filename, data, text, now);
    assert t.docs == s.docs[filename := DocMetadata(title, filename, Some(fileType), FileSize(data), now)];
  }

  /** `update_document`. An anonymous caller is refused; bytes that are not
      UTF-8 make `unwrap` panic before anything else is checked; a missing
      collection or file is NotFound. Otherwise the old document is removed
      and the new one inserted under the same file name. */
  method UpdateDocument(db: Database, caller: Principal, now: u64, fileType: string, title: string,
                        filename: string, data: seq<byte>) returns (reply: Reply)
    requires db.Valid()
    modifies db.collections.Values
    ensures db.Valid() && db.collections == old(db.collections)
    ensures caller == Anonymous ==> reply == Replied(Err(Unauthorized))
    ensures caller != Anonymous && Utf8.Decode(data).None? ==> reply == Trapped
    ensures (&& caller != Anonymous && Utf8.Decode(data).Some?
             && (caller.text !in old(db.State()) || filename !in old(db.State())[caller.text].docs)) ==>
      reply == Replied(Err(NotFound))
    ensures (reply.Trapped? || reply.result.Err?) ==> db.State() == old(db.State())
    ensures (&& caller != Anonymous && Utf8.Decode(data).Some?
             && caller.text in old(db.State()) && filename in old(db.State())[caller.text].docs) ==>
      && reply == Replied(Ok("Document '" + filename + "' successfully updated"))
      && db.State() == old(db.State())[caller.text :=
           WithDocument(Indexed(Removed(old(db.State())[caller.text], filename)), fileType, title, filename,
                        data, Utf8.Decode(data).value, now)]
  {
    if caller == Anonymous {
      return Replied(Err(Unauthorized));
    }
    var name := caller.text;
    var decoded := Utf8.Decode(data);
    if decoded.None? {
      return Trapped;
    }
    var content := decoded.value;
    if name !in db.collections {
      return Replied(Err(NotFound));
    }
    var found, matched := db.GetDocsByQuery(name, FileNameQuery(filename));
    FileNameQueryFinds(db.collections[name].docs, filename, found.value, matched);
    if found.value == [] {
      return Replied(Err(NotFound));
    }
    ghost var s0 := db.State();
    assert s0 == old(db.State()) && name in s0 && filename in s0[name].docs;
    var removed := db.RemoveDocumentFromCollection(name, filename);
    ghost var s1 := db.State();
    assert s1 == s0[name := Indexed(Removed(s0[name], filename))];
    StoreDocument(db, name, fileType, title, filename, data, content, now);
    UpdateTwice(s0, name, s1[name], WithDocument(s1[name], fileType, title, filename, data, content, now));
    reply := Replied(Ok("Document '" + filename + "' successfully updated"));
  }

  /** `delete_document`: refuses an anonymous caller, otherwise exactly
      `remove_document_from_collection` on the caller's collection. */
  method DeleteDocument(db: Database, caller: Principal, filename: string) returns (r: Result<string, Error>)
    requires db.Valid()
    modifies db.collections.Values
    ensures db.Valid() && db.collections == old(db.collections)
    ensures caller == Anonymous ==> r == Err(Unauthorized)
    ensures caller != Anonymous ==>
      r == if caller.text in old(db.State()) && filename in old(db.State())[caller.text].docs
           then Ok("Document '" + filename + "' successfully deleted")
           else Err(NotFound)
    ensures db.State() == if r.Err? then old(db.State())
      else old(db.State())[caller.text := Indexed(Removed(old(db.State())[caller.text], filename))]
  {
    if caller == Anonymous {
      return Err(Unauthorized);
    }
    var name := caller.text;
    var removed := db.RemoveDocumentFromCollection(name, filename);
    if removed.Err? {
      return Err(removed.error);
    }
    r := Ok("Document '" + filename + "' successfully deleted");
  }

  function Min(a: int, b: int): int
  {
    if a <= b then a else b
  }

  /** The page `list_documents` returns, computed with unbounded integers:
      the documents from `offset` on, at most `limit` of them. */
  function Paginate<T>(docs: seq<T>, limit: nat, offset: nat): (page: seq<T>)
    ensures |page| == if offset >= |docs| then 0 else Min(limit, |docs| - offset)
    ensures forall i :: 0 <= i < |page| ==> page[i] == docs[offset + i]
  {
    if offset >= |docs| then [] else docs[offset..Min(offset + limit, |docs|)]
  }

  /** The same slicing in `usize` arithmetic, as written: `offset + limit`
      overflows when it reaches 2^32. A debug build panics on the overflow; a
      release build wraps to a value below `offset`, and the slice then
      panics. None stands for that panic. */
  function PaginateAsWritten<T>(docs: seq<T>, limit: usize, offset: usize): Option<seq<T>>
    requires |docs| < USIZE_MODULUS
  {
    if offset >= |docs| then Some([])
    else
      var end := Min((offset + limit) % USIZE_MODULUS, |docs|);
      if end < offset then None else Some(docs[offset..end])
  }

  /** As written, the page is lost exactly when the offset is inside the
      list and `offset + limit` does not fit a `usize`; otherwise it is the
      intended page. */
  lemma PaginateAsWrittenTraps<T>(docs: seq<T>, limit: usize, offset: usize)
    requires |docs| < USIZE_MODULUS
    ensures PaginateAsWritten(docs, limit, offset).None? <==>
      offset < |docs| && offset + limit >= USIZE_MODULUS
    ensures PaginateAsWritten(docs, limit, offset).Some? ==>
      PaginateAsWritten(docs, limit, offset).value == Paginate(docs, limit, offset)
  {
  }

  /** The input that shows it: two documents, offset 1 and the largest
      limit. The intended page is the second document; the code panics. */
  lemma PaginateOverflowExample()
    ensures PaginateAsWritten(["a", "b"], USIZE_MODULUS - 1, 1) == None
    ensures Paginate(["a", "b"], USIZE_MODULUS - 1, 1) == ["b"]
  {
  }

  /** Consecutive pages of one size, starting at `offset`, until the first
      empty one. */
  function PagesFrom<T>(docs: seq<T>, limit: nat, offset: nat): seq<T>
    requires limit > 0
    decreases |docs| - offset
  {
    if offset >= |docs| then [] else Paginate(docs, limit, offset) + PagesFrom(docs, limit, offset + limit)
  }

  /** Paging through the list from the start returns every document once,
      in order. */
  lemma {:induction false} PagesCoverList<T>(docs: seq<T>, limit: nat, offset: nat)
    requires limit > 0 && offset <= |docs|
    ensures PagesFrom(docs, limit, offset) == docs[offset..]
    decreases |docs| - offset
  {
    if offset < |docs| {
      var next := Min(offset + limit, |docs|);
      assert Paginate(docs, limit, offset) == docs[offset..next];
      PagesCoverList(docs, limit, next);
      if next == |docs| {
        assert PagesFrom(docs, limit, offset + limit) == [];
      } else {
        assert next == offset + limit;
      }
      assert docs[offset..next] + docs[next..] == docs[offset..];
    }
  }

  /** `list_documents`: refuses an anonymous caller and a caller without a
      collection; otherwise the requested page (default limit 10, offset 0)
      of the caller's documents ordered by creation time. `all` is that
      ordered list and `order` the file names of its documents. */
  method ListDocuments(db: Database, caller: Principal, limit: Option<nat>, offset: Option<nat>)
    returns (r: Result<seq<DocMetadata>, Error>, ghost all: seq<DocMetadata>, ghost order: seq<string>)
    ensures caller == Anonymous ==> r == Err(Unauthorized)
    ensures caller != Anonymous && caller.text !in db.collections ==> r == Err(NotFound)
    ensures caller != Anonymous && caller.text in db.collections ==>
      var docs := db.collections[caller.text].docs;
      && Lists(docs, docs.Keys, all, order)
      && SortedByCreatedAt(all)
      && r == Ok(Paginate(all, limit.GetOr(DEFAULT_LIMIT), offset.GetOr(DEFAULT_OFFSET)))
  {
    all, order := [], [];
    if caller == Anonymous {
      return Err(Unauthorized), all, order;
    }
    var name := caller.text;
    var lim := limit.GetOr(DEFAULT_LIMIT);
    var off := offset.GetOr(DEFAULT_OFFSET);
    if name !in db.collections {
      return Err(NotFound), all, order;
    }
    var docs;
    docs, order := db.GetDocs(name);
    all := docs.value;
    r := Ok(Paginate(docs.value, lim, off));
  }
}
