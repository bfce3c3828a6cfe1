/** The life of an asset: declared, uploaded in one piece or in chunks, checked
    against its digest, and served or failed. */
module Assets {
  import opened Wrappers
  import opened Grid
  import opened Raster

  const U64_MAX: nat := 0xFFFF_FFFF_FFFF_FFFF

  type u64 = x: nat | x <= U64_MAX

  type Id = nat
  type Digest = seq<byte>

  datatype Kind = Managed(declaredSize: u64, digest: Digest) | Remote(href: string)

  datatype State = Pending | Available | Failed

  /** A record; `about` stands for media type, title, description and roles. */
  datatype Record = Record(id: Id, kind: Kind, state: State, about: string, mediaType: Option<string>)

  /** An item's asset, or with an empty item the collection's own. */
  datatype Scope = Scope(item: string, key: string)

  type Records = map<Scope, Record>

  function Lower(s: string): string {
    if s == "" then "" else [if 'A' <= s[0] <= 'Z' then s[0] - 'A' + 'a' else s[0]] + Lower(s[1..])
  }

  /** Nothing but white space. */
  predicate Blank(s: string) {
    forall i :: 0 <= i < |s| ==> s[i] in {' ', '\t', '\n', '\r'}
  }

  /** Size cap and, if there is one, the list of allowed media types; letter
      case does not matter. */
  datatype Policy = Policy(maxBytes: u64, allowed: Option<seq<string>>) {
    predicate Accepts(mediaType: Option<string>) {
      allowed.Some? ==> mediaType.Some? && exists i :: 0 <= i < |allowed.value| && Lower(allowed.value[i]) == Lower(mediaType.value)
    }
  }

  datatype AssetError = NotFound | Conflict | PayloadTooLarge(limit: u64) | UnsupportedMediaType | Invalid | Unprocessable | StorageFailed | NoObjectStore

  /** One letter, in whichever case. */
  predicate SameLetter(c: char, d: char) {
    c == d || ('A' <= c <= 'Z' && d == c - 'A' + 'a') || ('A' <= d <= 'Z' && c == d - 'A' + 'a')
  }

  predicate SameLetters(a: string, b: string) { |a| == |b| && forall i :: 0 <= i < |a| ==> SameLetter(a[i], b[i]) }

  lemma {:induction false} LowerIs(s: string)
    ensures |Lower(s)| == |s|
    ensures forall i :: 0 <= i < |s| ==> Lower(s)[i] == if 'A' <= s[i] <= 'Z' then s[i] - 'A' + 'a' else s[i]
  {
    if s != "" {
      LowerIs(s[1..]);
      forall i | 0 < i < |s| ensures Lower(s)[i] == Lower(s[1..])[i - 1] && s[i] == s[1..][i - 1] {
      }
    }
  }

  lemma LowerIff(a: string, b: string)
    ensures Lower(a) == Lower(b) <==> SameLetters(a, b)
  {
    hide Lower;
    LowerIs(a);
    LowerIs(b);
    if SameLetters(a, b) {
      assert Lower(a) == Lower(b);
    } else if |a| == |b| {
      var i :| 0 <= i < |a| && !SameLetter(a[i], b[i]);
      assert Lower(a)[i] != Lower(b)[i];
    }
  }

  /** A media type is accepted exactly if there is no list, or it is on it in
      whichever case. */
  lemma AcceptsIff(policy: Policy, mediaType: Option<string>)
    ensures policy.Accepts(mediaType) <==>
              policy.allowed.None?
              || (mediaType.Some? && exists i :: 0 <= i < |policy.allowed.value| && SameLetters(policy.allowed.value[i], mediaType.value))
  {
    if policy.allowed.Some? && mediaType.Some? {
      forall i | 0 <= i < |policy.allowed.value|
        ensures Lower(policy.allowed.value[i]) == Lower(mediaType.value) <==> SameLetters(policy.allowed.value[i], mediaType.value)
      {
        LowerIff(policy.allowed.value[i], mediaType.value);
      }
    }
  }

  function Concat(chunks: seq<seq<byte>>): seq<byte> {
    if chunks == [] then [] else Concat(chunks[..|chunks| - 1]) + chunks[|chunks| - 1]
  }

  // ---- What never happens to a record ------------------------------------

  /** The same asset later: unchanged, or a pending one decided. */
  predicate Later(a: Record, b: Record) {
    a == b || (a.state == Pending && b == a.(state := b.state))
  }

  /** From one state of the records to a later one, `owner` being the ids
      issued by the first: whatever has such an id was there before, and has
      moved forward only. */
  ghost predicate Evolves(earlier: Records, owner: map<Id, Scope>, later: Records) {
    forall s :: s in later && later[s].id in owner ==> s in earlier && earlier[s].id == later[s].id && Later(earlier[s], later[s])
  }

  lemma EvolvesOn(a: Records, ownerA: map<Id, Scope>, b: Records, ownerB: map<Id, Scope>, c: Records)
    requires Evolves(a, ownerA, b) && Evolves(b, ownerB, c) && ownerA.Keys <= ownerB.Keys
    ensures Evolves(a, ownerA, c)
  {
  }

  // ---- What holds between operations -------------------------------------

  /** Every id was issued for one scope and never again. */
  ghost predicate Owned(records: Records, owner: map<Id, Scope>) {
    forall s :: s in records ==> records[s].id in owner && owner[records[s].id] == s
  }

  /** Whose bytes these are: those of a managed asset that still exists. */
  ghost predicate HasOwner(records: Records, owner: map<Id, Scope>, id: Id) {
    id in owner && owner[id] in records && records[owner[id]].id == id && records[owner[id]].kind.Managed?
  }

  /** A managed asset has bytes exactly when it is available, and then they
      hash to its declared digest; a remote one never waits. */
  ghost predicate RecordStored(sha: seq<byte> -> Digest, objects: map<Id, seq<byte>>, r: Record) {
    match r.kind
    case Managed(_, digest) => (r.id in objects <==> r.state == Available) && (r.id in objects ==> sha(objects[r.id]) == digest)
    case Remote(_) => r.state == Available
  }

  ghost predicate Stored(sha: seq<byte> -> Digest, records: Records, objects: map<Id, seq<byte>>, owner: map<Id, Scope>) {
    && (forall s :: s in records ==> RecordStored(sha, objects, records[s]))
    && (forall id :: id in objects ==> HasOwner(records, owner, id))
  }

  /** What an upload has accumulated is its accepted chunks, and within the
      declared size. */
  ghost predicate Accumulated(records: Records, uploads: map<Id, seq<byte>>, accepted: map<Id, seq<seq<byte>>>, owner: map<Id, Scope>) {
    && uploads.Keys == accepted.Keys && uploads.Keys <= owner.Keys
    && (forall id :: id in uploads ==> uploads[id] == Concat(accepted[id]))
    && (forall s :: s in records && records[s].kind.Managed? && records[s].id in uploads ==>
          |uploads[records[s].id]| <= records[s].kind.declaredSize)
  }

  lemma AddRecord(sha: seq<byte> -> Digest, records: Records, objects: map<Id, seq<byte>>, owner: map<Id, Scope>,
                  uploads: map<Id, seq<byte>>, accepted: map<Id, seq<seq<byte>>>, s: Scope, r: Record)
    requires Owned(records, owner) && Stored(sha, records, objects, owner) && Accumulated(records, uploads, accepted, owner)
    requires s !in records && r.id !in owner && (r.state == if r.kind.Managed? then Pending else Available)
    ensures Owned(records[s := r], owner[r.id := s]) && Stored(sha, records[s := r], objects, owner[r.id := s])
    ensures Accumulated(records[s := r], uploads, accepted, owner[r.id := s])
    ensures Evolves(records, owner, records[s := r])
  {
    assert !HasOwner(records, owner, r.id);
    forall id | id in objects ensures HasOwner(records[s := r], owner[r.id := s], id) { assert HasOwner(records, owner, id); }
  }

  /** A pending asset is decided and its object follows. */
  lemma Decide(sha: seq<byte> -> Digest, records: Records, objects: map<Id, seq<byte>>, owner: map<Id, Scope>, s: Scope, bytes: seq<byte>, good: bool)
    requires Owned(records, owner) && Stored(sha, records, objects, owner)
    requires s in records && records[s].kind.Managed? && records[s].state == Pending
    requires good ==> sha(bytes) == records[s].kind.digest
    ensures var r := records[s].(state := if good then Available else Failed);
            && Owned(records[s := r], owner)
            && Stored(sha, records[s := r], if good then objects[r.id := bytes] else objects, owner)
            && Evolves(records, owner, records[s := r])
  {
    var r := records[s].(state := if good then Available else Failed);
    var objects' := if good then objects[r.id := bytes] else objects;
    assert RecordStored(sha, objects, records[s]);
    var decided := records[s := r];
    forall t | t in decided ensures RecordStored(sha, objects', decided[t]) {
      assert RecordStored(sha, objects, records[t]);
    }
    forall id | id in objects' ensures HasOwner(records[s := r], owner, id) {
      if id in objects { assert HasOwner(records, owner, id); }
    }
  }

  /** Deciding an asset leaves the accumulated uploads as they were. */
  lemma DecideKeepsUploads(records: Records, uploads: map<Id, seq<byte>>, accepted: map<Id, seq<seq<byte>>>, owner: map<Id, Scope>, s: Scope, state: State)
    requires Accumulated(records, uploads, accepted, owner) && s in records
    ensures Accumulated(records[s := records[s].(state := state)], uploads, accepted, owner)
  {
    hide Concat;
  }

  /** A new, longer or dropped upload. */
  lemma SetUpload(records: Records, uploads: map<Id, seq<byte>>, accepted: map<Id, seq<seq<byte>>>, owner: map<Id, Scope>,
                  id: Id, chunks: seq<seq<byte>>)
    requires Accumulated(records, uploads, accepted, owner) && Owned(records, owner) && id in owner
    requires owner[id] in records && records[owner[id]].id == id && records[owner[id]].kind.Managed?
    requires |Concat(chunks)| <= records[owner[id]].kind.declaredSize
    ensures Accumulated(records, uploads[id := Concat(chunks)], accepted[id := chunks], owner)
  {
    hide Concat;
  }

  lemma DropUpload(records: Records, uploads: map<Id, seq<byte>>, accepted: map<Id, seq<seq<byte>>>, owner: map<Id, Scope>, id: Id)
    requires Accumulated(records, uploads, accepted, owner)
    ensures Accumulated(records, uploads - {id}, accepted - {id}, owner)
  {
    hide Concat;
  }

  lemma RemoveRecord(sha: seq<byte> -> Digest, records: Records, objects: map<Id, seq<byte>>, owner: map<Id, Scope>,
                     uploads: map<Id, seq<byte>>, accepted: map<Id, seq<seq<byte>>>, s: Scope)
    requires Owned(records, owner) && Stored(sha, records, objects, owner) && Accumulated(records, uploads, accepted, owner) && s in records
    ensures var kept := if records[s].kind.Managed? then objects - {records[s].id} else objects;
            Owned(records - {s}, owner) && Stored(sha, records - {s}, kept, owner) && Accumulated(records - {s}, uploads, accepted, owner)
    ensures Evolves(records, owner, records - {s})
  {
    hide Concat;
    var kept := if records[s].kind.Managed? then objects - {records[s].id} else objects;
    var others := records - {s};
    forall t | t in others ensures RecordStored(sha, kept, others[t]) { assert RecordStored(sha, objects, records[t]); }
    forall id | id in kept ensures HasOwner(records - {s}, owner, id) { assert HasOwner(records, owner, id); }
  }

  // ---- The lane ----------------------------------------------------------

  /** The record store and the object store of one collection. `committed` is
      the store's profile: whether taking an upload already wrote its bytes at
      the final key. */
  class Lane {
    const sha: seq<byte> -> Digest
    const committed: bool
    var records: Records
    var objects: map<Id, seq<byte>>
    var uploads: map<Id, seq<byte>>
    ghost var owner: map<Id, Scope>
    ghost var accepted: map<Id, seq<seq<byte>>>

    ghost predicate Valid()
      reads this
    {
      Owned(records, owner) && Stored(sha, records, objects, owner) && Accumulated(records, uploads, accepted, owner)
    }

    constructor (sha: seq<byte> -> Digest, committed: bool)
      ensures Valid() && records == map[] && objects == map[] && this.sha == sha && this.committed == committed
    {
      this.sha, this.committed := sha, committed;
      records, objects, uploads, owner, accepted := map[], map[], map[], map[], map[];
    }

    /** Declares a managed asset; the same declaration again is answered with
        the record that exists, another one is refused. */
    method RegisterManaged(policy: Policy, scope: Scope, size: u64, digest: Digest, about: string, mediaType: Option<string>, newId: Id)
      returns (r: Result<Record, AssetError>)
      requires Valid() && newId !in owner
      modifies this
      ensures Valid() && Evolves(old(records), old(owner), records) && objects == old(objects) && uploads == old(uploads)
      ensures old(owner.Keys) <= owner.Keys <= old(owner.Keys) + {newId}
      ensures r.Ok? <==>
        && policy.Accepts(mediaType) && size <= policy.maxBytes
        && (scope in old(records) ==>
              var e := old(records)[scope]; e.kind == Managed(size, digest) && e.about == about && e.mediaType == mediaType)
      ensures r.Ok? ==> r.value == if scope in old(records) then old(records)[scope] else Record(newId, Managed(size, digest), Pending, about, mediaType)
      ensures records == if r.Ok? then old(records)[scope := r.value] else old(records)
    {
      hide Owned, Stored, Accumulated;
      if !policy.Accepts(mediaType) {
        return Err(UnsupportedMediaType);
      }
      if size > policy.maxBytes {
        return Err(PayloadTooLarge(policy.maxBytes));
      }
      if scope in records {
        var existing := records[scope];
        if existing.kind == Managed(size, digest) && existing.about == about && existing.mediaType == mediaType {
          return Ok(existing);
        }
        return Err(Conflict);
      }
      var record := Record(newId, Managed(size, digest), Pending, about, mediaType);
      AddRecord(sha, records, objects, owner, uploads, accepted, scope, record);
      records := records[scope := record];
      owner := owner[newId := scope];
      return Ok(record);
    }

    /** Declares a remote asset: available at once, never any bytes. */
    method RegisterRemote(policy: Policy, scope: Scope, href: string, about: string, mediaType: Option<string>, newId: Id)
      returns (r: Result<Record, AssetError>)
      requires Valid() && newId !in owner
      modifies this
      ensures Valid() && Evolves(old(records), old(owner), records) && objects == old(objects) && uploads == old(uploads)
      ensures old(owner.Keys) <= owner.Keys <= old(owner.Keys) + {newId}
      ensures r.Ok? <==>
        && !Blank(href) && policy.Accepts(mediaType)
        && (scope in old(records) ==> var e := old(records)[scope]; e.kind == Remote(href) && e.about == about && e.mediaType == mediaType)
      ensures r.Ok? ==> r.value == if scope in old(records) then old(records)[scope] else Record(newId, Remote(href), Available, about, mediaType)
      ensures records == if r.Ok? then old(records)[scope := r.value] else old(records)
    {
      hide Owned, Stored, Accumulated;
      if Blank(href) {
        return Err(Invalid);
      }
      if !policy.Accepts(mediaType) {
        return Err(UnsupportedMediaType);
      }
      if scope in records {
        var existing := records[scope];
        if existing.kind == Remote(href) && existing.about == about && existing.mediaType == mediaType {
          return Ok(existing);
        }
        return Err(Conflict);
      }
      var record := Record(newId, Remote(href), Available, about, mediaType);
      AddRecord(sha, records, objects, owner, uploads, accepted, scope, record);
      records := records[scope := record];
      owner := owner[newId := scope];
      return Ok(record);
    }

    /** A managed asset that still waits for its bytes. */
    predicate Waiting(scope: Scope)
      reads this
    {
      scope in records && records[scope].kind.Managed? && records[scope].state == Pending
    }

    method RequirePendingManaged(scope: Scope) returns (r: Result<Record, AssetError>)
      ensures r == if scope !in records || records[scope].kind.Remote? then Err(NotFound)
                   else if records[scope].state != Pending then Err(Conflict) else Ok(records[scope])
    {
      if scope !in records {
        return Err(NotFound);
      }
      var record := records[scope];
      if record.kind.Remote? {
        return Err(NotFound);
      }
      if record.state != Pending {
        return Err(Conflict);
      }
      return Ok(record);
    }

    /** Checks the digest, then stores the bytes unless the store has them
        already, then decides the asset. `before` is the object store without
        bytes that were committed ahead of the check. */
    method FinishUpload(scope: Scope, bytes: seq<byte>, alreadyThere: bool, putFails: bool, ghost before: map<Id, seq<byte>>)
      returns (r: Result<Record, AssetError>)
      requires Waiting(scope) && Owned(records, owner) && Stored(sha, records, before, owner) && Accumulated(records, uploads, accepted, owner)
      requires records[scope].id !in before && objects == if alreadyThere then before[records[scope].id := bytes] else before
      modifies this
      ensures Valid() && Evolves(old(records), old(owner), records) && uploads == old(uploads) && owner == old(owner)
      ensures var was := old(records)[scope];
              var matches, stored := sha(bytes) == was.kind.digest, alreadyThere || !putFails;
              && records == old(records)[scope := was.(state := if matches && stored then Available else Failed)]
              && objects == (if matches && stored then before[was.id := bytes] else before)
              && r == if !matches then Err(Unprocessable) else if !stored then Err(StorageFailed) else Ok(records[scope])
    {
      hide Owned, Stored, Accumulated, Evolves;
      var record := records[scope];
      ghost var good := sha(bytes) == record.kind.digest && (alreadyThere || !putFails);
      Decide(sha, records, before, owner, scope, bytes, good);
      DecideKeepsUploads(records, uploads, accepted, owner, scope, if good then Available else Failed);
      if sha(bytes) != record.kind.digest {
        objects := objects - {record.id};
        assert objects == before;
        records := records[scope := record.(state := Failed)];
        return Err(Unprocessable);
      }
      if !alreadyThere {
        if putFails {
          records := records[scope := record.(state := Failed)];
          return Err(StorageFailed);
        }
        objects := objects[record.id := bytes];
      }
      records := records[scope := record.(state := Available)];
      return Ok(records[scope]);
    }

    lemma RecordsAreThemselves()
      requires Valid()
      ensures Evolves(records, owner, records)
    {
    }

    lemma WhatIsStored()
      requires Valid()
      ensures forall s :: s in records && records[s].kind.Managed? ==> (records[s].id in objects <==> records[s].state == Available)
      ensures forall s :: s in records && records[s].kind.Managed? && records[s].state == Available ==> sha(objects[records[s].id]) == records[s].kind.digest
      ensures forall id :: id in objects ==> exists s :: s in records && records[s].id == id
    {
      forall s | s in records ensures RecordStored(sha, objects, records[s]) {
      }
      forall id | id in objects ensures exists s :: s in records && records[s].id == id {
        assert HasOwner(records, owner, id);
        assert owner[id] in records;
      }
    }

    /** A waiting asset has no bytes yet. */
    lemma WaitingHasNoBytes(scope: Scope)
      requires Valid() && Waiting(scope)
      ensures records[scope].id !in objects
      ensures records[scope].id in owner && owner[records[scope].id] == scope
    {
      assert RecordStored(sha, objects, records[scope]);
    }

    /** The whole body in one transfer. */
    method CompleteUpload(scope: Scope, bytes: seq<byte>, putFails: bool) returns (r: Result<Record, AssetError>)
      requires Valid()
      modifies this
      ensures Valid() && Evolves(old(records), old(owner), records) && uploads == old(uploads) && owner == old(owner)
      ensures old(!Waiting(scope)) ==> r.Err? && records == old(records) && objects == old(objects)
      ensures old(Waiting(scope)) ==>
        var was := old(records)[scope];
        var good := sha(bytes) == was.kind.digest && !putFails;
        && (r.Ok? <==> good)
        && records == old(records)[scope := was.(state := if good then Available else Failed)]
        && objects == (if good then old(objects)[was.id := bytes] else old(objects))
    {
      hide Owned, Stored, Accumulated;
      var pending :- RequirePendingManaged(scope);
      WaitingHasNoBytes(scope);
      r := FinishUpload(scope, bytes, false, putFails, objects);
    }

    // ---- Uploads in chunks -----------------------------------------------

    method CreateUpload(scope: Scope) returns (r: Result<(), AssetError>)
      requires Valid()
      modifies this
      ensures Valid() && records == old(records) && objects == old(objects) && owner == old(owner)
      ensures r.Ok? <==> old(Waiting(scope)) && old(records)[scope].id !in old(uploads)
      ensures uploads == if r.Ok? then old(uploads)[old(records)[scope].id := []] else old(uploads)
    {
      hide Owned, Stored, Accumulated;
      var record :- RequirePendingManaged(scope);
      if record.id in uploads {
        return Err(Conflict);
      }
      WaitingHasNoBytes(scope);
      assert Concat([]) == [];
      SetUpload(records, uploads, accepted, owner, record.id, []);
      uploads := uploads[record.id := []];
      accepted := accepted[record.id := []];
      return Ok(());
    }

    /** Appends a chunk exactly where the upload has come to; a chunk that would
        pass the declared size, or belongs elsewhere, changes nothing. The sum
        saturates; where that hides a total that no file can hold, the store
        fails to write it. */
    method AppendUpload(scope: Scope, offset: u64, chunk: seq<byte>) returns (r: Result<nat, AssetError>)
      requires Valid()
      modifies this
      ensures Valid() && records == old(records) && objects == old(objects) && owner == old(owner)
      ensures r.Ok? <==>
        && old(Waiting(scope)) && offset + |chunk| <= old(records)[scope].kind.declaredSize
        && old(records)[scope].id in old(uploads) && |old(uploads)[old(records)[scope].id]| == offset
      ensures r.Ok? ==>
        var id := old(records)[scope].id;
        && uploads == old(uploads)[id := old(uploads)[id] + chunk] && r.value == offset + |chunk|
        && accepted == old(accepted)[id := old(accepted)[id] + [chunk]]
      ensures r.Err? ==> uploads == old(uploads) && accepted == old(accepted)
      ensures old(Waiting(scope)) && r.Err? ==>
        var record := old(records)[scope];
        r.error == if offset + |chunk| > record.kind.declaredSize && record.kind.declaredSize < 0xFFFF_FFFF_FFFF_FFFF then PayloadTooLarge(record.kind.declaredSize)
                   else if record.id !in old(uploads) then NotFound
                   else if |old(uploads)[record.id]| != offset then Conflict
                   else StorageFailed
    {
      hide Owned, Stored, Accumulated;
      var record :- RequirePendingManaged(scope);
      var prospectiveTotal := Min(offset + |chunk|, U64_MAX);
      if prospectiveTotal > record.kind.declaredSize {
        return Err(PayloadTooLarge(record.kind.declaredSize));
      }
      if record.id !in uploads {
        return Err(NotFound);
      }
      if |uploads[record.id]| != offset {
        return Err(Conflict);
      }
      if offset + |chunk| > U64_MAX {
        return Err(StorageFailed);
      }
      WaitingHasNoBytes(scope);
      AppendChunk(record.id, chunk);
      SetUpload(records, uploads, accepted, owner, record.id, accepted[record.id] + [chunk]);
      uploads := uploads[record.id := uploads[record.id] + chunk];
      accepted := accepted[record.id := accepted[record.id] + [chunk]];
      return Ok(|uploads[record.id]|);
    }

    lemma AppendChunk(id: Id, chunk: seq<byte>)
      requires Valid() && id in uploads
      ensures id in accepted && uploads[id] == Concat(accepted[id]) && Concat(accepted[id] + [chunk]) == uploads[id] + chunk
    {
      assert (accepted[id] + [chunk])[..|accepted[id]|] == accepted[id];
    }

    /** Takes the accumulated bytes out of the upload; one profile reads a
        staging file, the other has just committed them at the final key. */
    method TakeUpload(id: Id) returns (bytes: Option<seq<byte>>)
      modifies this
      ensures records == old(records) && owner == old(owner)
      ensures bytes == if id in old(uploads) then Some(old(uploads)[id]) else None
      ensures uploads == old(uploads) - {id} && accepted == old(accepted) - {id}
      ensures objects == if id in old(uploads) && committed then old(objects)[id := old(uploads)[id]] else old(objects)
    {
      if id !in uploads {
        accepted := accepted - {id};
        uploads := uploads - {id};
        return None;
      }
      bytes := Some(uploads[id]);
      if committed {
        objects := objects[id := uploads[id]];
      }
      uploads := uploads - {id};
      accepted := accepted - {id};
    }

    /** Completes a chunked upload: the bytes checked, stored and published are
        the accepted chunks one after the other, and both profiles end in the
        same state. */
    method CompleteResumable(scope: Scope, putFails: bool) returns (r: Result<Record, AssetError>)
      requires Valid()
      modifies this
      ensures Valid() && Evolves(old(records), old(owner), records) && owner == old(owner)
      ensures old(!Waiting(scope)) || old(records)[scope].id !in old(uploads) ==>
        r.Err? && records == old(records) && objects == old(objects) && uploads == old(uploads)
      ensures old(Waiting(scope)) && old(records)[scope].id in old(uploads) ==>
        var was := old(records)[scope];
        var bytes := Concat(old(accepted)[was.id]);
        var good := sha(bytes) == was.kind.digest && (committed || !putFails);
        && (r.Ok? <==> good)
        && records == old(records)[scope := was.(state := if good then Available else Failed)]
        && objects == (if good then old(objects)[was.id := bytes] else old(objects))
        && uploads == old(uploads) - {was.id}
    {
      hide Owned, Stored, Accumulated;
      var record :- RequirePendingManaged(scope);
      WaitingHasNoBytes(scope);
      DropUpload(records, uploads, accepted, owner, record.id);
      if record.id in uploads { AppendChunk(record.id, []); }
      var taken := TakeUpload(record.id);
      if taken.None? {
        assert uploads == old(uploads);
        return Err(NotFound);
      }
      r := FinishUpload(scope, taken.value, committed, putFails, old(objects));
    }

    /** Drops an unfinished upload; the asset stays pending. */
    method AbandonUpload(scope: Scope) returns (r: Result<(), AssetError>)
      requires Valid()
      modifies this
      ensures Valid() && records == old(records) && objects == old(objects) && owner == old(owner)
      ensures r.Ok? <==> old(Waiting(scope))
      ensures uploads == if r.Ok? then old(uploads) - {old(records)[scope].id} else old(uploads)
    {
      hide Owned, Stored, Accumulated;
      var record :- RequirePendingManaged(scope);
      DropUpload(records, uploads, accepted, owner, record.id);
      uploads := uploads - {record.id};
      accepted := accepted - {record.id};
      return Ok(());
    }

    /** Removes the object first and then the record. */
    method DeleteAsset(scope: Scope, hasObjectStore: bool) returns (r: Result<Option<Record>, AssetError>)
      requires Valid()
      modifies this
      ensures Valid() && Evolves(old(records), old(owner), records) && uploads == old(uploads) && owner == old(owner)
      ensures r.Err? <==> scope in old(records) && old(records)[scope].kind.Managed? && !hasObjectStore
      ensures r.Err? ==> records == old(records) && objects == old(objects)
      ensures r.Ok? ==>
        && r.value == (if scope in old(records) then Some(old(records)[scope]) else None)
        && records == old(records) - {scope}
        && objects == if scope in old(records) && old(records)[scope].kind.Managed? then old(objects) - {old(records)[scope].id} else old(objects)
    {
      hide Owned, Stored, Accumulated;
      if scope !in records {
        assert records - {scope} == records;
        return Ok(None);
      }
      var record := records[scope];
      RemoveRecord(sha, records, objects, owner, uploads, accepted, scope);
      if record.kind.Managed? {
        if !hasObjectStore {
          return Err(NoObjectStore);
        }
        objects := objects - {record.id};
      }
      records := records - {scope};
      return Ok(Some(record));
    }
  }

  // ---- Any sequence of operations ----------------------------------------

  datatype Op =
    | RegisterManaged(policy: Policy, scope: Scope, size: u64, digest: Digest, about: string, mediaType: Option<string>)
    | RegisterRemote(policy: Policy, scope: Scope, href: string, about: string, mediaType: Option<string>)
    | Upload(scope: Scope, bytes: seq<byte>, putFails: bool)
    | Create(scope: Scope)
    | Append(scope: Scope, offset: u64, chunk: seq<byte>)
    | Complete(scope: Scope, putFails: bool)
    | Abandon(scope: Scope)
    | Remove(scope: Scope, hasObjectStore: bool)

  /** What the two stores hold. */
  datatype Stores = Stores(records: Records, objects: map<Id, seq<byte>>, uploads: map<Id, seq<byte>>) {
    /** A managed asset that still waits for its bytes. */
    predicate Waits(scope: Scope) {
      scope in records && records[scope].kind.Managed? && records[scope].state == Pending
    }

    /** A waiting asset gets its bytes, or fails and gets none. */
    function Decided(scope: Scope, bytes: seq<byte>, good: bool): Stores
      requires Waits(scope)
    {
      var r := records[scope].(state := if good then Available else Failed);
      Stores(records[scope := r], if good then objects[r.id := bytes] else objects, uploads)
    }
  }

  /** One operation on the stores, `id` being the next one to issue. */
  function Done(sha: seq<byte> -> Digest, committed: bool, op: Op, id: Id, s: Stores): Stores {
    match op
    case RegisterManaged(policy, scope, size, digest, about, mediaType) =>
      if policy.Accepts(mediaType) && size <= policy.maxBytes && scope !in s.records
      then s.(records := s.records[scope := Record(id, Managed(size, digest), Pending, about, mediaType)]) else s
    case RegisterRemote(policy, scope, href, about, mediaType) =>
      if !Blank(href) && policy.Accepts(mediaType) && scope !in s.records
      then s.(records := s.records[scope := Record(id, Remote(href), Available, about, mediaType)]) else s
    case Upload(scope, bytes, putFails) =>
      if s.Waits(scope) then s.Decided(scope, bytes, sha(bytes) == s.records[scope].kind.digest && !putFails) else s
    case Create(scope) =>
      if s.Waits(scope) && s.records[scope].id !in s.uploads then s.(uploads := s.uploads[s.records[scope].id := []]) else s
    case Append(scope, offset, chunk) =>
      if s.Waits(scope) && offset + |chunk| <= s.records[scope].kind.declaredSize
         && s.records[scope].id in s.uploads && |s.uploads[s.records[scope].id]| == offset
      then s.(uploads := s.uploads[s.records[scope].id := s.uploads[s.records[scope].id] + chunk]) else s
    case Complete(scope, putFails) =>
      if s.Waits(scope) && s.records[scope].id in s.uploads then
        var bytes := s.uploads[s.records[scope].id];
        s.(uploads := s.uploads - {s.records[scope].id}).Decided(scope, bytes, sha(bytes) == s.records[scope].kind.digest && (committed || !putFails))
      else s
    case Abandon(scope) => if s.Waits(scope) then s.(uploads := s.uploads - {s.records[scope].id}) else s
    case Remove(scope, hasObjectStore) =>
      if scope !in s.records || (s.records[scope].kind.Managed? && !hasObjectStore) then s
      else
        s.(records := s.records - {scope},
           objects := if s.records[scope].kind.Managed? then s.objects - {s.records[scope].id} else s.objects)
  }

  function DoneAll(sha: seq<byte> -> Digest, committed: bool, ops: seq<Op>, ids: nat -> Id, s: Stores): Stores {
    if ops == [] then s
    else
      var n: nat := |ops| - 1;
      Done(sha, committed, ops[n], ids(n), DoneAll(sha, committed, ops[..n], ids, s))
  }

  function StoresOf(lane: Lane): Stores
    reads lane
  {
    Stores(lane.records, lane.objects, lane.uploads)
  }

  method Perform(lane: Lane, op: Op, id: Id)
    requires lane.Valid() && id !in lane.owner
    modifies lane
    ensures lane.Valid() && Evolves(old(lane.records), old(lane.owner), lane.records)
    ensures old(lane.owner.Keys) <= lane.owner.Keys <= old(lane.owner.Keys) + {id}
    ensures StoresOf(lane) == Done(lane.sha, lane.committed, op, id, old(StoresOf(lane)))
  {
    hide Owned, Stored, Evolves, Concat, Policy.Accepts, Blank;
    match op {
      case RegisterManaged(policy, scope, size, digest, about, mediaType) =>
        var r := lane.RegisterManaged(policy, scope, size, digest, about, mediaType, id);
      case RegisterRemote(policy, scope, href, about, mediaType) =>
        var r := lane.RegisterRemote(policy, scope, href, about, mediaType, id);
      case Upload(scope, bytes, putFails) => var r := lane.CompleteUpload(scope, bytes, putFails);
      case Create(scope) => var r := lane.CreateUpload(scope); lane.RecordsAreThemselves();
      case Append(scope, offset, chunk) => var r := lane.AppendUpload(scope, offset, chunk); lane.RecordsAreThemselves();
      case Complete(scope, putFails) => var r := lane.CompleteResumable(scope, putFails);
      case Abandon(scope) => var r := lane.AbandonUpload(scope); lane.RecordsAreThemselves();
      case Remove(scope, hasObjectStore) => var r := lane.DeleteAsset(scope, hasObjectStore);
    }
  }

  /** Whatever the sequence of operations: the stores are what the operations make
      of them one after the other, what is served hashes to what was declared,
      nothing else is stored, and no asset ever moves backwards. */
  method PerformAll(lane: Lane, ops: seq<Op>, ids: nat -> Id)
    requires lane.Valid() && (forall i: nat :: ids(i) !in lane.owner) && (forall i: nat, j: nat :: ids(i) == ids(j) ==> i == j)
    modifies lane
    ensures lane.Valid() && Evolves(old(lane.records), old(lane.owner), lane.records)
    ensures StoresOf(lane) == DoneAll(lane.sha, lane.committed, ops, ids, old(StoresOf(lane)))
    ensures forall s :: s in lane.records && lane.records[s].kind.Managed? ==>
              (lane.records[s].id in lane.objects <==> lane.records[s].state == Available)
    ensures forall s :: s in lane.records && lane.records[s].kind.Managed? && lane.records[s].state == Available ==>
              lane.sha(lane.objects[lane.records[s].id]) == lane.records[s].kind.digest
    ensures forall id :: id in lane.objects ==> exists s :: s in lane.records && lane.records[s].id == id
  {
    lane.RecordsAreThemselves();
    for n := 0 to |ops|
      invariant lane.Valid() && Evolves(old(lane.records), old(lane.owner), lane.records)
      invariant old(lane.owner.Keys) <= lane.owner.Keys
      invariant StoresOf(lane) == DoneAll(lane.sha, lane.committed, ops[..n], ids, old(StoresOf(lane)))
      invariant forall i: nat :: i >= n ==> ids(i) !in lane.owner
    {
      ghost var before, owner := lane.records, lane.owner;
      assert ops[..n + 1][..n] == ops[..n];
      Perform(lane, ops[n], ids(n));
      EvolvesOn(old(lane.records), old(lane.owner), before, owner, lane.records);
    }
    assert ops[..|ops|] == ops;
    lane.WhatIsStored();
  }
}
