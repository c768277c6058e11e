/** The king-clip service over its table and object store, in the imperative form of the program. */
module KingClipService {
  import opened Options
  import K = KingClips

  type User = int

  /** The object key of a clip, unique per uploaded object. */
  datatype Key = Key(hill: K.Hill, user: User, uuid: string)

  datatype KingClip = KingClip(id: nat, user: User, hill: K.Hill, key: Key, blinkTsMs: int, expiresAt: int)

  const DAILY := K.Hill("daily")
  const MONTHLY := K.Hill("monthly")
  const RANKED := K.Hill("ranked")

  predicate ValidHillType(hill: K.Hill) {
    hill == DAILY || hill == MONTHLY || hill == RANKED
  }

  // ---- Statements on the table ----------------------------------------------------------

  predicate Superseded(c: KingClip, hill: K.Hill, keepId: nat) {
    c.hill == hill && c.id < keepId
  }

  /** The rows a supersede leaves, and the object keys of those it deletes, in table order. */
  function Kept(rows: seq<KingClip>, hill: K.Hill, keepId: nat): seq<KingClip> {
    if rows == [] then []
    else
      var n := |rows| - 1;
      Kept(rows[..n], hill, keepId) + if Superseded(rows[n], hill, keepId) then [] else [rows[n]]
  }

  function Evicted(rows: seq<KingClip>, hill: K.Hill, keepId: nat): seq<Key> {
    if rows == [] then []
    else
      var n := |rows| - 1;
      Evicted(rows[..n], hill, keepId) + if Superseded(rows[n], hill, keepId) then [rows[n].key] else []
  }

  /** A supersede deletes exactly the lower rows of the hill, and returns exactly their keys. */
  lemma {:induction false} SupersedeSplits(rows: seq<KingClip>, hill: K.Hill, keepId: nat)
    ensures forall c :: c in Kept(rows, hill, keepId) <==> c in rows && !(c.hill == hill && c.id < keepId)
    ensures forall k :: k in Evicted(rows, hill, keepId) <==> exists c :: c in rows && c.key == k && c.hill == hill && c.id < keepId
    ensures |rows| == |Kept(rows, hill, keepId)| + |Evicted(rows, hill, keepId)|
  {
    if rows != [] {
      var n := |rows| - 1;
      SupersedeSplits(rows[..n], hill, keepId);
      assert rows == rows[..n] + [rows[n]];
    }
  }

  /** Where a row with the id is. */
  function IndexOf(rows: seq<KingClip>, id: nat, from: nat): Option<nat>
    decreases |rows| - from
  {
    if from >= |rows| then None else if rows[from].id == id then Some(from) else IndexOf(rows, id, from + 1)
  }

  lemma {:induction false} IndexOfFinds(rows: seq<KingClip>, id: nat, from: nat)
    ensures IndexOf(rows, id, from).Some? ==> from <= IndexOf(rows, id, from).value < |rows| && rows[IndexOf(rows, id, from).value].id == id
    ensures IndexOf(rows, id, from).None? ==> forall k :: from <= k < |rows| ==> rows[k].id != id
    decreases |rows| - from
  {
    if from < |rows| && rows[from].id != id {
      IndexOfFinds(rows, id, from + 1);
    }
  }

  function Without(rows: seq<KingClip>, k: nat): seq<KingClip>
    requires k < |rows|
  {
    rows[..k] + rows[k + 1..]
  }

  /** Ids are drawn in order and never again; no two rows share an object. */
  predicate RowsOk(rows: seq<KingClip>, nextId: nat) {
    && (forall k :: 0 <= k < |rows| ==> rows[k].id < nextId)
    && (forall j, k :: 0 <= j < k < |rows| ==> rows[j].id != rows[k].id && rows[j].key != rows[k].key)
  }

  lemma {:induction false} KeptAreRows(rows: seq<KingClip>, hill: K.Hill, keepId: nat)
    ensures forall c :: c in Kept(rows, hill, keepId) ==> c in rows
  {
    if rows != [] {
      KeptAreRows(rows[..|rows| - 1], hill, keepId);
    }
  }

  lemma OneMoreRow(rows: seq<KingClip>, c: KingClip, nextId: nat)
    requires RowsOk(rows, nextId) && c.id < nextId
    requires forall k :: 0 <= k < |rows| ==> rows[k].id != c.id && rows[k].key != c.key
    ensures RowsOk(rows + [c], nextId)
  {
  }

  lemma {:induction false} KeptStaysOk(rows: seq<KingClip>, hill: K.Hill, keepId: nat, nextId: nat)
    requires RowsOk(rows, nextId)
    ensures RowsOk(Kept(rows, hill, keepId), nextId)
  {
    if rows != [] {
      var n := |rows| - 1;
      KeptStaysOk(rows[..n], hill, keepId, nextId);
      KeptAreRows(rows[..n], hill, keepId);
      var rest := Kept(rows[..n], hill, keepId);
      forall k | 0 <= k < |rest| ensures rest[k].id != rows[n].id && rest[k].key != rows[n].key {
        assert rest[k] in rows[..n];
      }
      OneMoreRow(rest, rows[n], nextId);
    }
  }

  /** The objects of the rows that stay are not among those to remove. */
  lemma KeptKeysStay(rows: seq<KingClip>, hill: K.Hill, keepId: nat, nextId: nat)
    requires RowsOk(rows, nextId)
    ensures forall c :: c in Kept(rows, hill, keepId) ==> c.key !in Evicted(rows, hill, keepId)
  {
    SupersedeSplits(rows, hill, keepId);
  }

  class KingClipRepository {
    var rows: seq<KingClip>
    var nextId: nat

    ghost predicate Valid()
      reads this
    {
      RowsOk(rows, nextId)
    }

    constructor ()
      ensures Valid() && rows == []
    {
      rows, nextId := [], 0;
    }

    method Create(user: User, hill: K.Hill, key: Key, blinkTsMs: int, expiresAt: int) returns (created: KingClip)
      requires Valid() && forall k :: 0 <= k < |rows| ==> rows[k].key != key
      modifies this
      ensures Valid()
      ensures created == KingClip(old(nextId), user, hill, key, blinkTsMs, expiresAt)
      ensures rows == old(rows) + [created] && nextId == old(nextId) + 1
    {
      created := KingClip(nextId, user, hill, key, blinkTsMs, expiresAt);
      rows := rows + [created];
      nextId := nextId + 1;
    }

    method GetByID(id: nat) returns (clip: Option<KingClip>)
      ensures clip.Some? ==> clip.value in rows && clip.value.id == id
      ensures clip.None? ==> forall c :: c in rows ==> c.id != id
    {
      var k := Find(id);
      return if k.Some? then Some(rows[k.value]) else None;
    }

    method Find(id: nat) returns (at: Option<nat>)
      ensures at == IndexOf(rows, id, 0)
      ensures at.Some? ==> at.value < |rows| && rows[at.value].id == id
      ensures at.None? ==> forall k :: 0 <= k < |rows| ==> rows[k].id != id
    {
      var k := 0;
      while k < |rows|
        invariant 0 <= k <= |rows|
        invariant forall j :: 0 <= j < k ==> rows[j].id != id
        invariant IndexOf(rows, id, 0) == IndexOf(rows, id, k)
      {
        if rows[k].id == id {
          return Some(k);
        }
        k := k + 1;
      }
      return None;
    }

    method Delete(id: nat) returns (key: Option<Key>)
      requires Valid()
      modifies this`rows
      ensures Valid()
      ensures key.None? <==> forall k :: 0 <= k < |old(rows)| ==> old(rows)[k].id != id
      ensures key.None? ==> rows == old(rows)
      ensures key.Some? ==> exists k ::
                && 0 <= k < |old(rows)| && old(rows)[k].id == id && key.value == old(rows)[k].key
                && rows == old(rows)[..k] + old(rows)[k + 1..]
    {
      var k := Find(id);
      if k.None? {
        return None;
      }
      key := Some(rows[k.value].key);
      rows := Without(rows, k.value);
    }

    method DeleteSupersededByHill(hill: K.Hill, keepId: nat) returns (keys: seq<Key>)
      requires Valid()
      modifies this`rows
      ensures Valid()
      ensures rows == Kept(old(rows), hill, keepId) && keys == Evicted(old(rows), hill, keepId)
      ensures forall c :: c in rows <==> c in old(rows) && !(c.hill == hill && c.id < keepId)
      ensures forall k :: k in keys <==> exists c :: c in old(rows) && c.key == k && c.hill == hill && c.id < keepId
    {
      keys := [];
      var kept := [];
      var k := 0;
      while k < |rows|
        invariant 0 <= k <= |rows| && rows == old(rows)
        invariant kept == Kept(rows[..k], hill, keepId) && keys == Evicted(rows[..k], hill, keepId)
      {
        assert rows[..k + 1][..k] == rows[..k];
        if Superseded(rows[k], hill, keepId) {
          keys := keys + [rows[k].key];
        } else {
          kept := kept + [rows[k]];
        }
        k := k + 1;
      }
      assert rows[..k] == rows;
      KeptStaysOk(rows, hill, keepId, nextId);
      SupersedeSplits(rows, hill, keepId);
      rows := kept;
    }
  }

  // ---- The service ----------------------------------------------------------------------

  datatype UploadReply = InvalidHillType | InvalidContentType | TooLarge | InvalidBlinkTs | StoreFailed | CreateFailed | Uploaded(clip: KingClip)

  datatype DeleteReply = KingClipNotFound | Deleted

  /** What fails outside: the object put, the insert, the supersede, and the removals. */
  datatype Faults = Faults(put: bool, create: bool, supersede: bool, remove: set<Key>)

  class Service {
    const repo: KingClipRepository
    const maxUploadBytes: int
    const dailyTtl: int
    const monthlyTtl: int
    const rankedTtl: int
    var objects: set<Key>

    /** Every row's object is in the store. */
    ghost predicate Valid()
      reads this, repo
    {
      repo.Valid() && forall c :: c in repo.rows ==> c.key in objects
    }

    constructor (repo: KingClipRepository, maxUploadBytes: int, dailyTtl: int, monthlyTtl: int, rankedTtl: int)
      requires repo.Valid() && repo.rows == []
      ensures Valid() && this.repo == repo && objects == {}
      ensures this.maxUploadBytes == maxUploadBytes
      ensures this.dailyTtl == dailyTtl && this.monthlyTtl == monthlyTtl && this.rankedTtl == rankedTtl
    {
      this.repo, this.maxUploadBytes, objects := repo, maxUploadBytes, {};
      this.dailyTtl, this.monthlyTtl, this.rankedTtl := dailyTtl, monthlyTtl, rankedTtl;
    }

    function TermFor(hill: K.Hill): int {
      if hill == DAILY then dailyTtl else if hill == MONTHLY then monthlyTtl else if hill == RANKED then rankedTtl else 0
    }

    /** Checks, stores the object, inserts the row, then supersedes; `uuid` is fresh.  A failed
        insert removes the object again; a failed supersede or removal is only logged. */
    method Upload(user: User, hill: K.Hill, blinkTsMs: int, webm: bool, size: int, uuid: string, now: int, faults: Faults) returns (reply: UploadReply)
      requires Valid() && Key(hill, user, uuid) !in objects
      modifies this`objects, repo
      ensures Valid()
      ensures reply.InvalidHillType? <==> hill != K.Hill("daily") && hill != K.Hill("monthly") && hill != K.Hill("ranked")
      ensures reply.InvalidContentType? <==> !reply.InvalidHillType? && !webm
      ensures reply.TooLarge? <==> !reply.InvalidHillType? && webm && (size <= 0 || size > maxUploadBytes)
      ensures reply.InvalidBlinkTs? <==> !reply.InvalidHillType? && webm && 0 < size <= maxUploadBytes && blinkTsMs < 0
      ensures reply.StoreFailed? || reply.CreateFailed? || reply.Uploaded? <==>
                !reply.InvalidHillType? && webm && 0 < size <= maxUploadBytes && blinkTsMs >= 0
      ensures reply.StoreFailed? ==> faults.put
      ensures reply.CreateFailed? ==> !faults.put && faults.create
      ensures reply.Uploaded? ==> !faults.put && !faults.create
      ensures !reply.Uploaded? ==> repo.rows == old(repo.rows)
      ensures !reply.Uploaded? && Key(hill, user, uuid) !in faults.remove ==> objects == old(objects)
      ensures reply.Uploaded? ==>
                var lifetime := if hill == K.Hill("daily") then dailyTtl else if hill == K.Hill("monthly") then monthlyTtl else rankedTtl;
                && reply.clip == KingClip(old(repo.nextId), user, hill, Key(hill, user, uuid), blinkTsMs, now + lifetime)
                && reply.clip in repo.rows && reply.clip.key in objects
                && (forall c :: c in old(repo.rows) && c.hill != hill ==> c in repo.rows && c.key in objects)
                && (!faults.supersede ==>
                      && (forall c :: c in repo.rows && c.hill == hill ==> c == reply.clip)
                      && (forall c :: c in old(repo.rows) && c.hill == hill && c.key !in faults.remove ==> c.key !in objects))
                && (faults.supersede ==> repo.rows == old(repo.rows) + [reply.clip])
    {
      if !ValidHillType(hill) {
        return InvalidHillType;
      }
      if !webm {
        return InvalidContentType;
      }
      if size <= 0 || size > maxUploadBytes {
        return TooLarge;
      }
      if blinkTsMs < 0 {
        return InvalidBlinkTs;
      }
      var key := Key(hill, user, uuid);
      if faults.put {
        return StoreFailed;
      }
      objects := objects + {key};
      if faults.create {
        if key !in faults.remove {
          objects := objects - {key};
        }
        return CreateFailed;
      }
      var created := repo.Create(user, hill, key, blinkTsMs, now + TermFor(hill));
      assert created in repo.rows && forall c :: c in old(repo.rows) ==> c in repo.rows && c.id < created.id;
      if !faults.supersede {
        Supersede(created, faults.remove);
      }
      return Uploaded(created);
    }

    /** Evicts the lower rows of the hill, then their objects as far as that works. */
    method Supersede(created: KingClip, fails: set<Key>)
      requires Valid() && created in repo.rows
      modifies this`objects, repo`rows
      ensures Valid()
      ensures forall c :: c in repo.rows <==> c in old(repo.rows) && !(c.hill == created.hill && c.id < created.id)
      ensures forall c :: c in old(repo.rows) && c.hill == created.hill && c.id < created.id && c.key !in fails ==> c.key !in objects
    {
      ghost var rows := repo.rows;
      var keys := repo.DeleteSupersededByHill(created.hill, created.id);
      KeptKeysStay(rows, created.hill, created.id, repo.nextId);
      RemoveObjects(keys, fails);
    }

    /** Best effort: an object whose removal fails stays. */
    method RemoveObjects(keys: seq<Key>, fails: set<Key>)
      modifies this`objects
      ensures forall k :: k in objects <==> k in old(objects) && !(k in keys && k !in fails)
    {
      var i := 0;
      while i < |keys|
        invariant 0 <= i <= |keys|
        invariant forall k :: k in objects <==> k in old(objects) && !(k in keys[..i] && k !in fails)
      {
        if keys[i] !in fails {
          objects := objects - {keys[i]};
        }
        i := i + 1;
      }
      assert keys[..i] == keys;
    }

    /** Only the owner may delete; to anyone else the clip does not exist. */
    method Delete(user: User, id: nat, removeFails: bool) returns (reply: DeleteReply)
      requires Valid()
      modifies this`objects, repo`rows
      ensures Valid()
      ensures reply.Deleted? <==> exists c :: c in old(repo.rows) && c.id == id && c.user == user
      ensures reply.Deleted? ==> forall c :: c in repo.rows <==> c in old(repo.rows) && c.id != id
      ensures !reply.Deleted? ==> repo.rows == old(repo.rows) && objects == old(objects)
    {
      var clip := repo.GetByID(id);
      IndexOfFinds(repo.rows, id, 0);
      if clip.None? {
        return KingClipNotFound;
      }
      if clip.value.user != user {
        return KingClipNotFound;
      }
      reply := ExpireByID(id, removeFails);
    }

    /** Removes row and object without an owner check. */
    method ExpireByID(id: nat, removeFails: bool) returns (reply: DeleteReply)
      requires Valid()
      modifies this`objects, repo`rows
      ensures Valid()
      ensures reply.Deleted? <==> exists c :: c in old(repo.rows) && c.id == id
      ensures reply.Deleted? ==> forall c :: c in repo.rows <==> c in old(repo.rows) && c.id != id
      ensures !reply.Deleted? ==> repo.rows == old(repo.rows) && objects == old(objects)
      ensures reply.Deleted? && !removeFails ==> forall c :: c in old(repo.rows) && c.id == id ==> c.key !in objects
    {
      var key := repo.Delete(id);
      if key.None? {
        return KingClipNotFound;
      }
      if !removeFails {
        objects := objects - {key.value};
      }
      return Deleted;
    }
  }
}
