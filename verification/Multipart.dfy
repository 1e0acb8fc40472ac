/** Multipart uploads: stored parts, and the completion that assembles them into one object. */
module Multipart {
  import opened Bytes
  import opened PartTags
  import opened Metadata
  import opened MetadataRuns

  /** Only the last part may be smaller than this. */
  const MIN_PART_SIZE: nat := 5 * 1024 * 1024

  /** A chunk of a part, in part order; its offset is only known once the object is assembled. */
  datatype PartChunk = PartChunk(size: nat, replicas: seq<Replica>)

  datatype Part = Part(etag: string, size: nat, chunks: seq<PartChunk>)

  datatype PartKey = PartKey(upload: string, number: int)

  type PartTable = map<PartKey, Part>

  /** One line of a completion request. */
  datatype Line = Line(number: int, etag: string)

  datatype Fault = NoSuchUpload | MalformedXML | InvalidPartOrder | InvalidPart | EntityTooSmall | CorruptETag

  datatype Outcome = Done(etag: string) | Rejected(fault: Fault)

  // ---------------------------------------------------------------- what a request asks for

  /** The first fault of line i, given that the lines before it have none. */
  function LineFault(parts: PartTable, id: string, req: seq<Line>, i: nat): Option<Fault>
    requires i < |req|
  {
    var k := PartKey(id, req[i].number);
    if req[i].number <= (if i == 0 then 0 else req[i - 1].number) then Some(InvalidPartOrder)
    else if k !in parts || !EqualFold(TrimQuotes(req[i].etag), parts[k].etag) then Some(InvalidPart)
    else if i != |req| - 1 && parts[k].size < MIN_PART_SIZE then Some(EntityTooSmall)
    else if HexDecode(parts[k].etag).None? then Some(CorruptETag)
    else None
  }

  ghost predicate Faultless(parts: PartTable, id: string, req: seq<Line>, n: nat) {
    n <= |req| && forall i: nat :: i < n ==> LineFault(parts, id, req, i).None?
  }

  /** What a completion has to meet, said without reference to the order of the checks. */
  ghost predicate Acceptable(uploads: map<string, Key>, parts: PartTable, id: string, key: Key, req: seq<Line>) {
    && id in uploads && uploads[id] == key
    && req != []
    && (forall i :: 0 <= i < |req| ==> req[i].number > 0)
    && (forall i, j :: 0 <= i < j < |req| ==> req[i].number < req[j].number)
    && (forall i :: 0 <= i < |req| ==> Matching(parts, id, req[i]))
    && (forall i :: 0 <= i < |req| - 1 ==> parts[PartKey(id, req[i].number)].size >= 5242880)
  }

  predicate Matching(parts: PartTable, id: string, line: Line) {
    var k := PartKey(id, line.number);
    k in parts && EqualFold(TrimQuotes(line.etag), parts[k].etag) && HexDecode(parts[k].etag).Some?
  }

  lemma {:induction false} FaultlessAscends(parts: PartTable, id: string, req: seq<Line>, i: nat, j: nat)
    requires j < |req| && i < j && Faultless(parts, id, req, |req|)
    ensures req[i].number < req[j].number
    decreases j
  {
    assert LineFault(parts, id, req, j).None?;
    if i < j - 1 { FaultlessAscends(parts, id, req, i, j - 1); }
  }

  lemma {:induction false} FaultlessPositive(parts: PartTable, id: string, req: seq<Line>, i: nat)
    requires i < |req| && Faultless(parts, id, req, |req|)
    ensures req[i].number > 0
  {
    assert LineFault(parts, id, req, i).None?;
    if i > 0 { FaultlessPositive(parts, id, req, i - 1); }
  }

  /** The checks, taken line by line, accept exactly the acceptable requests. */
  lemma FaultlessIffAcceptable(uploads: map<string, Key>, parts: PartTable, id: string, key: Key, req: seq<Line>)
    requires id in uploads && uploads[id] == key && req != []
    ensures Faultless(parts, id, req, |req|) <==> Acceptable(uploads, parts, id, key, req)
  {
    if Faultless(parts, id, req, |req|) {
      forall i: nat | i < |req| ensures req[i].number > 0 && Matching(parts, id, req[i]) {
        assert LineFault(parts, id, req, i).None?;
        FaultlessPositive(parts, id, req, i);
      }
      forall i: nat, j: nat | i < j < |req| ensures req[i].number < req[j].number {
        FaultlessAscends(parts, id, req, i, j);
      }
      forall i: nat | i < |req| - 1 ensures parts[PartKey(id, req[i].number)].size >= 5242880 {
        assert LineFault(parts, id, req, i).None?;
      }
    }
    if Acceptable(uploads, parts, id, key, req) {
      forall i: nat | i < |req| ensures LineFault(parts, id, req, i).None? {
        assert Matching(parts, id, req[i]);
      }
    }
  }

  /** The line's number is above the one before it. */
  ghost predicate InOrder(req: seq<Line>, i: nat)
    requires i < |req|
  {
    req[i].number > 0 && (i > 0 ==> req[i - 1].number < req[i].number)
  }

  /** The tag of the line is that of the stored part, but for quotes around it and the case of letters. */
  ghost predicate Names(parts: PartTable, id: string, line: Line) {
    var k := PartKey(id, line.number);
    k in parts && exists before, t, after :: Quoted(line.etag, before, t, after) && SameTag(t, parts[k].etag)
  }

  ghost predicate SameTag(a: string, b: string) {
    |a| == |b| && forall i :: 0 <= i < |a| ==> SameLetter(a[i], b[i])
  }

  ghost predicate TooSmall(parts: PartTable, id: string, req: seq<Line>, i: nat)
    requires i < |req|
  {
    var k := PartKey(id, req[i].number);
    i + 1 < |req| && k in parts && parts[k].size < 5242880
  }

  lemma NamesIff(parts: PartTable, id: string, line: Line)
    requires PartKey(id, line.number) in parts
    ensures Names(parts, id, line) <==> EqualFold(TrimQuotes(line.etag), parts[PartKey(id, line.number)].etag)
  {
    var etag := parts[PartKey(id, line.number)].etag;
    var before, after := TrimMeans(line.etag);
    FoldMeans(TrimQuotes(line.etag), etag);
    if Names(parts, id, line) {
      var b, t, a :| Quoted(line.etag, b, t, a) && SameTag(t, etag);
      QuotedOnce(line.etag, b, t, a, before, TrimQuotes(line.etag), after);
    }
  }

  /** Which fault a line has: the first of order, tag, size and digits that is wrong. */
  lemma FaultMeans(parts: PartTable, id: string, req: seq<Line>, i: nat)
    requires i < |req| && (i > 0 ==> req[i - 1].number > 0)
    ensures var f, k := LineFault(parts, id, req, i), PartKey(id, req[i].number);
            && (f == Some(InvalidPartOrder) <==> !InOrder(req, i))
            && (f == Some(InvalidPart) <==> InOrder(req, i) && !Names(parts, id, req[i]))
            && (f == Some(EntityTooSmall) <==>
                InOrder(req, i) && Names(parts, id, req[i]) && TooSmall(parts, id, req, i))
            && (f == Some(CorruptETag) <==>
                InOrder(req, i) && Names(parts, id, req[i]) && !TooSmall(parts, id, req, i)
                && !(|parts[k].etag| % 2 == 0 && AllHexadecimal(parts[k].etag)))
            && (f.None? ==> InOrder(req, i) && Names(parts, id, req[i]) && !TooSmall(parts, id, req, i)
                            && |parts[k].etag| % 2 == 0 && AllHexadecimal(parts[k].etag))
  {
    var k := PartKey(id, req[i].number);
    if k in parts {
      NamesIff(parts, id, req[i]);
      DecodeMeans(parts[k].etag);
    }
  }

  // ---------------------------------------------------------------- assembly

  function SizeSum(chunks: seq<PartChunk>): nat {
    if chunks == [] then 0 else SizeSum(chunks[..|chunks| - 1]) + chunks[|chunks| - 1].size
  }

  function PartOf(parts: PartTable, id: string, line: Line): Part {
    var k := PartKey(id, line.number);
    if k in parts then parts[k] else Part("", 0, [])
  }

  /** The chunks of the listed parts, one part after the other. */
  function AllChunks(parts: PartTable, id: string, req: seq<Line>): seq<PartChunk> {
    if req == [] then []
    else AllChunks(parts, id, req[..|req| - 1]) + PartOf(parts, id, req[|req| - 1]).chunks
  }

  function PartSizes(parts: PartTable, id: string, req: seq<Line>): nat {
    if req == [] then 0
    else PartSizes(parts, id, req[..|req| - 1]) + PartOf(parts, id, req[|req| - 1]).size
  }

  /** The decoded part etags, one after the other. */
  function TagBytes(parts: PartTable, id: string, req: seq<Line>): bytes {
    if req == [] then []
    else
      var raw := HexDecode(PartOf(parts, id, req[|req| - 1]).etag);
      TagBytes(parts, id, req[..|req| - 1]) + if raw.Some? then raw.value else []
  }

  /** Chunk i of the object is chunk i of the flat list, placed where the earlier ones end. */
  ghost predicate Placed(chunks: seq<Chunk>, flat: seq<PartChunk>) {
    && |chunks| == |flat|
    && forall i :: 0 <= i < |flat| ==> chunks[i] == Chunk(flat[i].size, SizeSum(flat[..i]), flat[i].replicas)
  }

  lemma PlacedMore(chunks: seq<Chunk>, flat: seq<PartChunk>, c: PartChunk)
    requires Placed(chunks, flat)
    ensures Placed(chunks + [Chunk(c.size, SizeSum(flat), c.replicas)], flat + [c])
    ensures SizeSum(flat + [c]) == SizeSum(flat) + c.size
  {
    var now := flat + [c];
    assert now[..|flat|] == flat;
    forall i | 0 <= i < |flat| ensures now[..i] == flat[..i] {}
  }

  lemma {:induction false} SizeSumJoin(a: seq<PartChunk>, b: seq<PartChunk>)
    ensures SizeSum(a + b) == SizeSum(a) + SizeSum(b)
    decreases |b|
  {
    if b == [] {
      assert a + b == a;
    } else {
      SizeSumJoin(a, b[..|b| - 1]);
      assert (a + b)[..|a + b| - 1] == a + b[..|b| - 1];
    }
  }

  ghost predicate SizesRight(parts: PartTable) {
    forall k :: k in parts ==> parts[k].size == SizeSum(parts[k].chunks)
  }

  /** The assembled length is the sum of the stored part sizes. */
  lemma {:induction false} SizesAgree(parts: PartTable, id: string, req: seq<Line>)
    requires SizesRight(parts)
    ensures SizeSum(AllChunks(parts, id, req)) == PartSizes(parts, id, req)
  {
    if req != [] {
      SizesAgree(parts, id, req[..|req| - 1]);
      SizeSumJoin(AllChunks(parts, id, req[..|req| - 1]), PartOf(parts, id, req[|req| - 1]).chunks);
    }
  }

  method AppendPart(chunks: seq<Chunk>, total: nat, ghost flat: seq<PartChunk>, add: seq<PartChunk>)
    returns (chunks': seq<Chunk>, total': nat)
    requires Placed(chunks, flat) && total == SizeSum(flat)
    ensures Placed(chunks', flat + add) && total' == SizeSum(flat + add)
  {
    chunks', total' := chunks, total;
    assert flat + add[..0] == flat;
    for n := 0 to |add|
      invariant Placed(chunks', flat + add[..n]) && total' == SizeSum(flat + add[..n])
    {
      assert flat + add[..n + 1] == (flat + add[..n]) + [add[n]];
      PlacedMore(chunks', flat + add[..n], add[n]);
      chunks' := chunks' + [Chunk(add[n].size, total', add[n].replicas)];
      total' := total' + add[n].size;
    }
    assert add[..|add|] == add;
  }

  /** Checks one line, in the order the faults are reported. */
  method CheckLine(rows: map<PartKey, PartRow>, ghost parts: PartTable, id: string, req: seq<Line>, i: nat, prev: int)
    returns (fault: Option<Fault>, raw: bytes)
    requires i < |req| && prev == (if i == 0 then 0 else req[i - 1].number) && RowsAgree(rows, parts)
    ensures fault == LineFault(parts, id, req, i)
    ensures fault.None? ==> HexDecode(PartOf(parts, id, req[i]).etag) == Some(raw)
  {
    fault, raw := None, [];
    var k := PartKey(id, req[i].number);
    if req[i].number <= prev {
      fault := Some(InvalidPartOrder);
    } else if k !in rows || !EqualFold(TrimQuotes(req[i].etag), rows[k].etag) {
      fault := Some(InvalidPart);
    } else if i != |req| - 1 && rows[k].size < MIN_PART_SIZE {
      fault := Some(EntityTooSmall);
    } else {
      var decoded := HexDecode(rows[k].etag);
      if decoded.None? {
        fault := Some(CorruptETag);
      } else {
        raw := decoded.value;
      }
    }
  }

  ghost predicate FirstFault(parts: PartTable, id: string, req: seq<Line>, fault: Option<Fault>) {
    exists i: nat :: i < |req| && Faultless(parts, id, req, i) && LineFault(parts, id, req, i) == fault
  }

  // ---------------------------------------------------------------- the store's side

  datatype PartRow = PartRow(etag: string, size: nat)

  ghost predicate RowsAgree(rows: map<PartKey, PartRow>, parts: PartTable) {
    rows.Keys == parts.Keys && forall k :: k in parts ==> rows[k] == PartRow(parts[k].etag, parts[k].size)
  }

  /** Part chunks in the shape of the chunk tables, which have no offset for them. */
  function AsChunks(chunks: seq<PartChunk>): seq<Chunk> {
    seq(|chunks|, i requires 0 <= i < |chunks| => Chunk(chunks[i].size, 0, chunks[i].replicas))
  }

  function FromChunks(chunks: seq<Chunk>): seq<PartChunk> {
    seq(|chunks|, i requires 0 <= i < |chunks| => PartChunk(chunks[i].size, chunks[i].replicas))
  }

  lemma FromAsChunks(chunks: seq<PartChunk>)
    ensures FromChunks(AsChunks(chunks)) == chunks
  {
  }

  function PartChunksIn(parts: PartTable): PartKey -> seq<Chunk> {
    (k: PartKey) => if k in parts then AsChunks(parts[k].chunks) else []
  }

  /** The part tables keep no liveness: what is read from them is alive. */
  function Revived(chunks: seq<PartChunk>): seq<PartChunk> {
    seq(|chunks|, i requires 0 <= i < |chunks| => PartChunk(chunks[i].size, AllAlive(chunks[i].replicas)))
  }

  function AllAlive(reps: seq<Replica>): seq<Replica> {
    seq(|reps|, j requires 0 <= j < |reps| => reps[j].(alive := true))
  }

  /** Read back, a part has its chunks in order, with the same replicas in order. */
  lemma RevivedMeans(chunks: seq<PartChunk>)
    ensures |Revived(chunks)| == |chunks|
    ensures forall i :: 0 <= i < |chunks| ==>
              Revived(chunks)[i].size == chunks[i].size && SameAlive(chunks[i].replicas, Revived(chunks)[i].replicas)
  {
  }

  ghost predicate SameAlive(was: seq<Replica>, now: seq<Replica>) {
    && |now| == |was|
    && forall j :: 0 <= j < |was| ==>
         && now[j].provider == was[j].provider && now[j].locator == was[j].locator
         && now[j].token == was[j].token && now[j].alive
  }

  lemma {:induction false} RevivedSize(chunks: seq<PartChunk>)
    ensures SizeSum(Revived(chunks)) == SizeSum(chunks)
  {
    if chunks != [] {
      var front := chunks[..|chunks| - 1];
      RevivedSize(front);
      assert Revived(chunks)[..|chunks| - 1] == Revived(front);
    }
  }

  /** Parts of every upload but one. */
  function DropParts(parts: PartTable, id: string): PartTable {
    map k | k in parts && k.upload != id :: parts[k]
  }

  /** Every part of another upload is as it was. */
  ghost predicate OtherPartsKept(was: PartTable, now: PartTable, id: string) {
    forall k: PartKey :: k.upload != id ==> (k in now <==> k in was) && (k in was ==> now[k] == was[k])
  }

  function DropPartRows(rows: map<PartKey, PartRow>, id: string): map<PartKey, PartRow> {
    map k | k in rows && k.upload != id :: rows[k]
  }

  function DropPartChunks(t: ChunkTable<PartKey>, id: string): ChunkTable<PartKey> {
    map x | x in t && x.obj.upload != id :: t[x]
  }

  function DropPartReplicas(t: ReplicaTable<PartKey>, id: string): ReplicaTable<PartKey> {
    map x | x in t && x.obj.upload != id :: t[x]
  }

  lemma DroppedMean(ct: ChunkTable<PartKey>, rt: ReplicaTable<PartKey>, parts: PartTable, id: string)
    requires RowsMean(ct, rt, PartChunksIn(parts))
    ensures RowsMean(DropPartChunks(ct, id), DropPartReplicas(rt, id), PartChunksIn(DropParts(parts, id)))
  {
    var f, g := PartChunksIn(parts), PartChunksIn(DropParts(parts, id));
    forall k ensures ChunkRows(DropPartChunks(ct, id), k, g(k)) {
      assert ChunkRows(ct, k, f(k));
    }
    forall k ensures AllReplicaRows(DropPartReplicas(rt, id), k, g(k)) {
      assert AllReplicaRows(rt, k, f(k));
      forall i: nat | i < |g(k)| ensures ReplicaRows(DropPartReplicas(rt, id), k, i, g(k)[i].replicas) {
        assert ReplicaRows(rt, k, i, f(k)[i].replicas);
      }
    }
  }

  class Uploads {
    const store: Store
    var uploads: map<string, Key>
    var rows: map<PartKey, PartRow>
    var chunks: ChunkTable<PartKey>
    var replicas: ReplicaTable<PartKey>
    ghost var parts: PartTable

    ghost predicate Valid()
      reads this, store
    {
      store.Valid() && RowsAgree(rows, parts) && RowsMean(chunks, replicas, PartChunksIn(parts))
    }

    constructor (s: Store)
      requires s.Valid()
      ensures Valid() && store == s && uploads == map[] && parts == map[]
    {
      store, uploads, rows, chunks, replicas, parts := s, map[], map[], map[], map[], map[];
    }

    /**
     Replaces a part and its chunk rows in one transaction: the tables then hold the latest upload of
     the part number and no row of an earlier one, and part sizes stay right if the caller's is.
     */
    method PutMultipartPart(id: string, number: int, etag: string, size: nat, list: seq<PartChunk>)
      requires Valid()
      modifies this`rows, this`chunks, this`replicas, this`parts
      ensures Valid() && parts == old(parts)[PartKey(id, number) := Part(etag, size, Revived(list))]
      ensures forall x :: x in chunks && x.obj == PartKey(id, number) ==> x.seqNo < |list|
      ensures forall x :: x in replicas && x.obj == PartKey(id, number) ==>
                x.seqNo < |list| && x.idx < |list[x.seqNo].replicas|
      ensures SizesRight(old(parts)) && size == SizeSum(list) ==> SizesRight(parts)
    {
      var k := PartKey(id, number);
      rows := rows[k := PartRow(etag, size)];
      chunks, replicas := ReplaceChunks(chunks, replicas, k, AsChunks(Revived(list)));
      parts := parts[k := Part(etag, size, Revived(list))];
      RevivedSize(list);
      OneOwnerChanged(old(chunks), chunks, old(replicas), replicas, PartChunksIn(old(parts)), PartChunksIn(parts), k);
      PutPartRows(chunks, replicas, k, list);
    }

    /** The chunks of a part, as its latest upload stored them. */
    method GetMultipartPartChunks(id: string, line: Line) returns (list: seq<PartChunk>)
      requires Valid()
      ensures list == PartOf(parts, id, line).chunks
    {
      var k := PartKey(id, line.number);
      ghost var all := PartChunksIn(parts)(k);
      var r := ReadChunks(chunks, replicas, k, all);
      list := FromChunks(r);
      FromAsChunks(PartOf(parts, id, line).chunks);
    }

    /** Writes the object and drops the upload's bookkeeping in one transaction. */
    method FinalizeMultipartUpload(key: Key, ver: Version, id: string)
      requires Valid()
      modifies this, store
      ensures Valid() && store.view == PutV(old(store.view), key, ver)
      ensures key in store.view && store.view[key] == ver && OthersKept(old(store.view), store.view, key)
      ensures uploads == old(uploads) - {id} && parts == DropParts(old(parts), id)
      ensures NoBookkeeping(id) && OtherPartsKept(old(parts), parts, id)
    {
      store.PutObject(key, ver);
      DroppedMean(chunks, replicas, parts, id);
      uploads, rows := uploads - {id}, DropPartRows(rows, id);
      chunks, replicas := DropPartChunks(chunks, id), DropPartReplicas(replicas, id);
      parts := DropParts(parts, id);
    }

    /** No row of any table mentions the upload. */
    ghost predicate NoBookkeeping(id: string)
      reads this
    {
      && id !in uploads
      && (forall k :: k in rows ==> k.upload != id)
      && (forall x :: x in chunks ==> x.obj.upload != id)
      && (forall x :: x in replicas ==> x.obj.upload != id)
    }

    /** The store and the bookkeeping are as before. */
    twostate predicate Unchanged()
      reads this, store
    {
      && store.view == old(store.view) && uploads == old(uploads) && parts == old(parts)
      && rows == old(rows) && chunks == old(chunks) && replicas == old(replicas)
    }

    /** Walks the request: the first fault, or the assembled chunk list with its length and tag bytes. */
    method Assemble(id: string, req: seq<Line>)
      returns (fault: Option<Fault>, list: seq<Chunk>, total: nat, tags: bytes)
      requires Valid()
      ensures fault.None? <==> Faultless(parts, id, req, |req|)
      ensures fault.Some? ==> FirstFault(parts, id, req, fault)
      ensures fault.None? ==> Placed(list, AllChunks(parts, id, req)) && total == SizeSum(AllChunks(parts, id, req))
      ensures fault.None? ==> tags == TagBytes(parts, id, req)
    {
      list, total, tags := [], 0, [];
      var prev := 0;
      for i := 0 to |req|
        invariant prev == if i == 0 then 0 else req[i - 1].number
        invariant Faultless(parts, id, req, i)
        invariant Placed(list, AllChunks(parts, id, req[..i])) && total == SizeSum(AllChunks(parts, id, req[..i]))
        invariant tags == TagBytes(parts, id, req[..i])
      {
        var raw;
        fault, raw := CheckLine(rows, parts, id, req, i, prev);
        if fault.Some? {
          return;
        }
        prev := req[i].number;
        assert req[..i + 1][..i] == req[..i];
        tags := tags + raw;
        var add := GetMultipartPartChunks(id, req[i]);
        list, total := AppendPart(list, total, AllChunks(parts, id, req[..i]), add);
      }
      assert req[..|req|] == req;
      fault := None;
    }

    /**
     Completes an upload: accepted exactly when the request is acceptable; then the object is the
     listed parts put end to end and no bookkeeping is left, otherwise nothing changed.
     */
    method CompleteMultipartUpload(key: Key, id: string, req: seq<Line>, tag: (bytes, nat) -> string)
      returns (res: Outcome)
      requires Valid()
      modifies this, store
      ensures Valid()
      ensures res.Done? <==> Acceptable(old(uploads), old(parts), id, key, req)
      ensures res.Rejected? ==> Unchanged()
      ensures res == Rejected(NoSuchUpload) <==> id !in old(uploads) || old(uploads)[id] != key
      ensures res == Rejected(MalformedXML) <==> id in old(uploads) && old(uploads)[id] == key && req == []
      ensures res.Rejected? && id in old(uploads) && old(uploads)[id] == key && req != [] ==>
                FirstFault(old(parts), id, req, Some(res.fault))
      ensures res.Done? ==> NoBookkeeping(id) && uploads == old(uploads) - {id} && parts == DropParts(old(parts), id)
      ensures res.Done? ==> OtherPartsKept(old(parts), parts, id)
      ensures res.Done? ==> key in store.view && store.view == PutV(old(store.view), key, store.view[key])
      ensures res.Done? ==> OthersKept(old(store.view), store.view, key)
      ensures res.Done? ==> Assembled(old(parts), id, req, store.view[key], tag) && res.etag == store.view[key].etag
    {
      if id !in uploads || uploads[id] != key {
        return Rejected(NoSuchUpload);
      }
      if req == [] {
        return Rejected(MalformedXML);
      }
      var fault, list, total, tags := Assemble(id, req);
      FaultlessIffAcceptable(uploads, parts, id, key, req);
      if fault.Some? {
        return Rejected(fault.value);
      }
      if SizesRight(parts) {
        SizesAgree(parts, id, req);
      }
      var etag := tag(tags, |req|);
      FinalizeMultipartUpload(key, Version(total, etag, list), id);
      res := Done(etag);
    }
  }

  /** `ver` is the listed parts put end to end; its size is the sum of the stored part sizes if those are right. */
  ghost predicate Assembled(parts: PartTable, id: string, req: seq<Line>, ver: Version, tag: (bytes, nat) -> string) {
    && Placed(ver.chunks, AllChunks(parts, id, req))
    && ver.size == SizeSum(AllChunks(parts, id, req))
    && (SizesRight(parts) ==> ver.size == PartSizes(parts, id, req))
    && ver.etag == tag(TagBytes(parts, id, req), |req|)
  }

  lemma PutPartRows(ct: ChunkTable<PartKey>, rt: ReplicaTable<PartKey>, k: PartKey, list: seq<PartChunk>)
    requires ChunkRows(ct, k, AsChunks(Revived(list))) && AllReplicaRows(rt, k, AsChunks(Revived(list)))
    requires forall i: nat, j: nat :: i >= |list| ==> ReplicaKey(k, i, j) !in rt
    ensures forall x :: x in ct && x.obj == k ==> x.seqNo < |list|
    ensures forall x :: x in rt && x.obj == k ==> x.seqNo < |list| && x.idx < |list[x.seqNo].replicas|
  {
    forall x | x in ct && x.obj == k ensures x.seqNo < |list| {
      assert x == ChunkKey(k, x.seqNo);
    }
    forall x | x in rt && x.obj == k ensures x.seqNo < |list| && x.idx < |list[x.seqNo].replicas| {
      assert x == ReplicaKey(k, x.seqNo, x.idx);
      assert ReplicaRows(rt, k, x.seqNo, AsChunks(Revived(list))[x.seqNo].replicas);
    }
  }

  // ---------------------------------------------------------------- what the assembled object holds

  /** Every replica of the chunk holds the same bytes, of the recorded size, on distinct providers. */
  ghost predicate Sound(w: World, c: PartChunk) {
    && c.replicas != [] && DistinctProviders(c.replicas)
    && c.size == |Held(w, c)|
    && forall j :: 0 <= j < |c.replicas| ==> w.blob(c.replicas[j].locator) == Held(w, c)
  }

  ghost function Held(w: World, c: PartChunk): bytes
    requires c.replicas != []
  {
    w.blob(c.replicas[0].locator)
  }

  ghost predicate AllSound(w: World, chunks: seq<PartChunk>) {
    forall i :: 0 <= i < |chunks| ==> Sound(w, chunks[i])
  }

  /** The bytes the chunks hold, one after the other. */
  ghost function Content(w: World, chunks: seq<PartChunk>): bytes
    requires AllSound(w, chunks)
  {
    if chunks == [] then [] else Content(w, chunks[..|chunks| - 1]) + Held(w, chunks[|chunks| - 1])
  }

  /** The bytes of the listed parts, one after the other. */
  ghost function PartsContent(w: World, parts: PartTable, id: string, req: seq<Line>): bytes
    requires PartsSound(w, parts)
  {
    if req == [] then []
    else
      PartIsSound(w, parts, id, req[|req| - 1]);
      PartsContent(w, parts, id, req[..|req| - 1]) + Content(w, PartOf(parts, id, req[|req| - 1]).chunks)
  }

  ghost predicate PartsSound(w: World, parts: PartTable) {
    forall k :: k in parts ==> AllSound(w, parts[k].chunks)
  }

  lemma PartIsSound(w: World, parts: PartTable, id: string, line: Line)
    requires PartsSound(w, parts)
    ensures AllSound(w, PartOf(parts, id, line).chunks)
  {
  }

  lemma {:induction false} ContentSize(w: World, chunks: seq<PartChunk>)
    requires AllSound(w, chunks)
    ensures |Content(w, chunks)| == SizeSum(chunks)
  {
    if chunks != [] { ContentSize(w, chunks[..|chunks| - 1]); }
  }

  lemma {:induction false} ContentJoin(w: World, a: seq<PartChunk>, b: seq<PartChunk>)
    requires AllSound(w, a) && AllSound(w, b)
    ensures AllSound(w, a + b) && Content(w, a + b) == Content(w, a) + Content(w, b)
    decreases |b|
  {
    if b == [] {
      assert a + b == a;
    } else {
      ContentJoin(w, a, b[..|b| - 1]);
      assert (a + b)[..|a + b| - 1] == a + b[..|b| - 1];
    }
  }

  /** The flat chunk list holds the concatenation of the parts. */
  lemma {:induction false} FlatContent(w: World, parts: PartTable, id: string, req: seq<Line>)
    requires PartsSound(w, parts)
    ensures AllSound(w, AllChunks(parts, id, req))
    ensures Content(w, AllChunks(parts, id, req)) == PartsContent(w, parts, id, req)
  {
    if req != [] {
      FlatContent(w, parts, id, req[..|req| - 1]);
      PartIsSound(w, parts, id, req[|req| - 1]);
      ContentJoin(w, AllChunks(parts, id, req[..|req| - 1]), PartOf(parts, id, req[|req| - 1]).chunks);
    }
  }

  /** The content of chunks is what their first replicas hold, end to end. */
  lemma {:induction false} ContentEndToEnd(w: World, chunks: seq<PartChunk>)
    returns (pieces: seq<bytes>, at: seq<nat>)
    requires AllSound(w, chunks)
    ensures EndToEnd(Content(w, chunks), pieces, at) && |pieces| == |chunks|
    ensures forall i :: 0 <= i < |chunks| ==> pieces[i] == w.blob(chunks[i].replicas[0].locator)
  {
    if chunks == [] {
      pieces, at := [], [0];
    } else {
      var front, last := chunks[..|chunks| - 1], Held(w, chunks[|chunks| - 1]);
      pieces, at := ContentEndToEnd(w, front);
      EndToEndMore(Content(w, front), pieces, at, last);
      pieces, at := pieces + [last], at + [|Content(w, front)| + |last|];
    }
  }

  /** The content of a completed object is the listed parts' contents end to end, in the order of the request. */
  lemma {:induction false} PartsEndToEnd(w: World, parts: PartTable, id: string, req: seq<Line>)
    returns (pieces: seq<bytes>, at: seq<nat>)
    requires PartsSound(w, parts) && forall i :: 0 <= i < |req| ==> PartKey(id, req[i].number) in parts
    ensures EndToEnd(PartsContent(w, parts, id, req), pieces, at) && |pieces| == |req|
    ensures forall i :: 0 <= i < |req| ==> pieces[i] == Content(w, parts[PartKey(id, req[i].number)].chunks)
  {
    if req == [] {
      pieces, at := [], [0];
    } else {
      var front, line := req[..|req| - 1], req[|req| - 1];
      var last := Content(w, parts[PartKey(id, line.number)].chunks);
      pieces, at := PartsEndToEnd(w, parts, id, front);
      EndToEndMore(PartsContent(w, parts, id, front), pieces, at, last);
      at := at + [|PartsContent(w, parts, id, front)| + |last|];
      pieces := pieces + [last];
    }
  }

  /** The tag of a completed object is computed over the bytes the part tags spell, in the order of the request. */
  lemma {:induction false} TagsEndToEnd(parts: PartTable, id: string, req: seq<Line>)
    returns (pieces: seq<bytes>, at: seq<nat>)
    requires forall i :: 0 <= i < |req| ==> Matching(parts, id, req[i])
    ensures EndToEnd(TagBytes(parts, id, req), pieces, at) && |pieces| == |req|
    ensures forall i :: 0 <= i < |req| ==>
              var k := PartKey(id, req[i].number);
              k in parts && Spells(parts[k].etag, pieces[i])
  {
    if req == [] {
      pieces, at := [], [0];
    } else {
      var front, line := req[..|req| - 1], req[|req| - 1];
      var etag := parts[PartKey(id, line.number)].etag;
      DecodeMeans(etag);
      var last := HexDecode(etag).value;
      pieces, at := TagsEndToEnd(parts, id, front);
      EndToEndMore(TagBytes(parts, id, front), pieces, at, last);
      at := at + [|TagBytes(parts, id, front)| + |last|];
      pieces := pieces + [last];
    }
  }

  /** Chunk i holds the content from where the chunks before it end. */
  lemma {:induction false} ContentAt(w: World, flat: seq<PartChunk>, i: nat)
    requires AllSound(w, flat) && i < |flat|
    ensures var from := SizeSum(flat[..i]);
            from + flat[i].size <= |Content(w, flat)| && Content(w, flat)[from..from + flat[i].size] == Held(w, flat[i])
  {
    var front, last := flat[..|flat| - 1], flat[|flat| - 1];
    var from := SizeSum(flat[..i]);
    ContentSize(w, front);
    assert Content(w, flat) == Content(w, front) + Held(w, last);
    if i < |flat| - 1 {
      assert front[..i] == flat[..i] && front[i] == flat[i];
      ContentAt(w, front, i);
      SliceOfFront(Content(w, front), Held(w, last), from, from + flat[i].size);
    } else {
      assert flat[..i] == front;
    }
  }

  lemma PlacedTiles(chunks: seq<Chunk>, flat: seq<PartChunk>)
    requires Placed(chunks, flat)
    ensures Tiled(chunks, SizeSum(flat))
  {
    forall i | 0 <= i < |flat| ensures SizeSum(flat[..i + 1]) == SizeSum(flat[..i]) + flat[i].size {
      assert flat[..i + 1][..i] == flat[..i];
    }
    assert flat[..|flat|] == flat;
  }

  lemma PlacedLocates(w: World, chunks: seq<Chunk>, flat: seq<PartChunk>, i: nat)
    requires AllSound(w, flat) && Placed(chunks, flat) && i < |chunks|
    ensures Locates(w, Content(w, flat), chunks[i]) && DistinctProviders(chunks[i].replicas)
  {
    ContentAt(w, flat, i);
    assert Sound(w, flat[i]);
  }

  /**
   A completed object's chunks tile it, every replica locates its slice, and the whole is the
   concatenation of the listed parts: the version is one that a store run may commit.
   */
  lemma CompletedIsGood(w: World, parts: PartTable, id: string, req: seq<Line>, ver: Version)
    requires w.cs > 0 && PartsSound(w, parts)
    requires Placed(ver.chunks, AllChunks(parts, id, req)) && ver.size == SizeSum(AllChunks(parts, id, req))
    requires !w.plain(ver.etag) && w.body(ver.etag) == PartsContent(w, parts, id, req)
    ensures GoodVersion(w, ver)
    ensures forall v, k :: Legit(w, v, Finalize(k, ver))
  {
    var flat := AllChunks(parts, id, req);
    FlatContent(w, parts, id, req);
    ContentSize(w, flat);
    PlacedTiles(ver.chunks, flat);
    forall i: nat | i < |ver.chunks| ensures Locates(w, w.body(ver.etag), ver.chunks[i])
      && DistinctProviders(ver.chunks[i].replicas) {
      PlacedLocates(w, ver.chunks, flat, i);
    }
  }

  /**
   A completion on a store whose rows are right: they stay right, and an accepted object's content is the
   concatenation of the listed parts.  The tag of the assembled object is a multipart one and determines it.
   */
  method Complete(u: Uploads, key: Key, id: string, req: seq<Line>, tag: (bytes, nat) -> string, ghost w: World)
    returns (res: Outcome)
    requires u.Valid() && w.cs > 0 && Good(w, u.store.view) && PartsSound(w, u.parts)
    requires var t := tag(TagBytes(u.parts, id, req), |req|);
             !w.plain(t) && w.body(t) == PartsContent(w, u.parts, id, req)
    modifies u, u.store
    ensures u.Valid() && Good(w, u.store.view)
    ensures res.Done? <==> Acceptable(old(u.uploads), old(u.parts), id, key, req)
    ensures res.Done? ==>
              && key in u.store.view
              && w.body(u.store.view[key].etag) == old(PartsContent(w, u.parts, id, req))
    ensures res.Rejected? ==> u.store.view == old(u.store.view)
    ensures res.Done? ==> OthersKept(old(u.store.view), u.store.view, key)
  {
    ghost var parts := u.parts;
    res := u.CompleteMultipartUpload(key, id, req, tag);
    if res.Done? {
      CompletedIsGood(w, parts, id, req, u.store.view[key]);
      GoodPut(w, old(u.store.view), key, u.store.view[key]);
    }
  }

  lemma GoodPut(w: World, v: View, key: Key, ver: Version)
    requires w.cs > 0 && Good(w, v) && GoodVersion(w, ver)
    ensures Good(w, PutV(v, key, ver))
  {
  }
}
