/** The bucket, the commit that reconciles it with a row, and the sweep that empties it of orphans. */
module Bucket {
  import opened Options
  import opened Ordering
  import opened Tables
  import opened Runs
  import opened Media
  import opened Store

  datatype Attributes = Attributes(size: int, contentType: string, sha256: Id)

  datatype Listing = Listing(key: Key, size: int, modified: int)

  class MemoryBucket {
    const sha: Sha
    var made: bool
    var objects: Objects

    constructor (sha: Sha)
      ensures this.sha == sha && !made && objects == map[]
    {
      this.sha, made, objects := sha, false, map[];
    }

    method EnsureBucket()
      modifies this`made
      ensures made
    {
      made := true;
    }

    /** Write-once: an address that holds bytes refuses more, and the bytes must be the signed ones. */
    method Put(key: Key, size: int, contentType: string, body: Body, now: int) returns (ok: bool)
      modifies this`objects
      ensures ok <==> made && Takes(sha, old(objects), key, size, body)
      ensures objects == if made then Uploading(sha, old(objects), key, size, contentType, body, now) else old(objects)
      ensures forall k | k in old(objects) :: k in objects && objects[k] == old(objects)[k]
    {
      if !made { return false; }
      if key in objects { return false; }
      if |body| != size { return false; }
      if sha(body) != key.digest { return false; }
      objects := objects[key := Stored(body, contentType, now)];
      return true;
    }

    method Stat(key: Key) returns (got: Option<Attributes>)
      ensures got.Some? <==> made && key in objects
      ensures got.Some? ==>
                got.value == Attributes(|objects[key].body|, objects[key].contentType, sha(objects[key].body))
    {
      if !made || key !in objects { return None; }
      var o := objects[key];
      return Some(Attributes(|o.body|, o.contentType, sha(o.body)));
    }

    method Delete(key: Key)
      modifies this`objects
      ensures objects == old(objects) - {key}
    {
      objects := objects - {key};
    }
  }

  // ---- the commit

  datatype CommitResult = NoMediaObject | UploadIncomplete | Declared(row: MediaRow)

  /** Nothing is written unless the object is there as declared; a row already committed is answered as it is. */
  function CommitOf(sha: Sha, media: map<Id, MediaRow>, made: bool, objects: Objects, key: Key): CommitResult {
    if key.digest !in media then NoMediaObject
    else if media[key.digest].uploaded then Declared(media[key.digest])
    else if made && Answers(sha, objects, key, media[key.digest]) then Declared(media[key.digest].(uploaded := true))
    else UploadIncomplete
  }

  method CommitMedia(rows: TravellerStore, objects: MemoryBucket, key: Key) returns (result: CommitResult)
    requires rows.Valid()
    modifies rows
    ensures rows.Valid()
    ensures result == CommitOf(objects.sha, old(rows.log.media), objects.made, objects.objects, key)
    ensures rows.Current() ==
            if result.Declared? then Next(old(rows.Current()), MarkMedia(key.digest)) else old(rows.Current())
  {
    if key.digest !in rows.log.media { return NoMediaObject; }
    var declared := rows.log.media[key.digest];
    if declared.uploaded {
      assert rows.log.media[key.digest := declared] == rows.log.media;
      return Declared(declared);
    }
    var stored := objects.Stat(key);
    if stored.None? { return UploadIncomplete; }
    if stored.value.size != declared.byteSize { return UploadIncomplete; }
    if stored.value.sha256 != key.digest { return UploadIncomplete; }
    if stored.value.contentType != declared.contentType { return UploadIncomplete; }
    var row := rows.MarkMediaUploaded(key.digest);
    return Declared(row.value);
  }

  // ---- the sweep

  datatype Found = Found(orphans: seq<Key>, bytes: int, seen: nat, skipped: nat)

  predicate IsOrphan(item: Listing, known: set<Key>, now: int, minAge: int) {
    item.key !in known && now - item.modified >= minAge
  }

  predicate IsRecent(item: Listing, known: set<Key>, now: int, minAge: int) {
    item.key !in known && now - item.modified < minAge
  }

  function OrphansIn(items: seq<Listing>, known: set<Key>, now: int, minAge: int): seq<Listing> {
    if items == [] then []
    else
      OrphansIn(items[..|items| - 1], known, now, minAge) +
      if IsOrphan(items[|items| - 1], known, now, minAge) then [items[|items| - 1]] else []
  }

  function KeysOf(items: seq<Listing>): seq<Key> {
    seq(|items|, i requires 0 <= i < |items| => items[i].key)
  }

  function Total(items: seq<Listing>): int {
    if items == [] then 0 else Total(items[..|items| - 1]) + items[|items| - 1].size
  }

  function RecentIn(items: seq<Listing>, known: set<Key>, now: int, minAge: int): nat {
    if items == [] then 0
    else
      RecentIn(items[..|items| - 1], known, now, minAge) +
      if IsRecent(items[|items| - 1], known, now, minAge) then 1 else 0
  }

  method Plan(items: seq<Listing>, known: set<Key>, now: int, minAge: int) returns (found: Found)
    ensures var orphans := OrphansIn(items, known, now, minAge);
            found == Found(KeysOf(orphans), Total(orphans), |items|, RecentIn(items, known, now, minAge))
  {
    found := Found([], 0, |items|, 0);
    for i := 0 to |items|
      invariant var orphans := OrphansIn(items[..i], known, now, minAge);
                found == Found(KeysOf(orphans), Total(orphans), |items|, RecentIn(items[..i], known, now, minAge))
    {
      assert items[..i + 1][..i] == items[..i];
      var item := items[i];
      ghost var before := OrphansIn(items[..i], known, now, minAge);
      ghost var after := OrphansIn(items[..i + 1], known, now, minAge);
      assert after == if IsOrphan(item, known, now, minAge) then before + [item] else before;
      if item.key in known {
      } else if now - item.modified < minAge {
        found := found.(skipped := found.skipped + 1);
      } else {
        found := found.(orphans := found.orphans + [item.key], bytes := found.bytes + item.size);
        assert KeysOf(before + [item]) == KeysOf(before) + [item.key];
        assert (before + [item])[..|before|] == before;
      }
    }
    assert items[..|items|] == items;
  }

  lemma {:induction false} OrphansExactly(items: seq<Listing>, known: set<Key>, now: int, minAge: int, item: Listing)
    ensures item in OrphansIn(items, known, now, minAge) <==> item in items && IsOrphan(item, known, now, minAge)
  {
    if items != [] {
      OrphansExactly(items[..|items| - 1], known, now, minAge, item);
      assert items == items[..|items| - 1] + [items[|items| - 1]];
    }
  }

  /** A listing that holds each object once. */
  ghost predicate Lists(items: seq<Listing>, objects: Objects) {
    && (forall i | 0 <= i < |items| :: items[i].key in objects && items[i].modified == objects[items[i].key].modified)
    && (forall k | k in objects :: exists i :: 0 <= i < |items| && items[i].key == k)
  }

  /** What a sweep plans from a listing is the set of old objects no row it saw names: the step the protocol takes. */
  lemma PlanIsTheProtocolStep(items: seq<Listing>, objects: Objects, known: set<Key>, now: int)
    requires Lists(items, objects)
    ensures (set k | k in KeysOf(OrphansIn(items, known, now, MIN_AGE))) == Orphans(objects, known, now)
  {
    var orphans := OrphansIn(items, known, now, MIN_AGE);
    forall k
      ensures k in KeysOf(orphans) <==> k in Orphans(objects, known, now)
    {
      if k in KeysOf(orphans) {
        var i :| 0 <= i < |orphans| && orphans[i].key == k;
        OrphansExactly(items, known, now, MIN_AGE, orphans[i]);
      }
      if k in Orphans(objects, known, now) {
        var i :| 0 <= i < |items| && items[i].key == k;
        OrphansExactly(items, known, now, MIN_AGE, items[i]);
        var j :| 0 <= j < |orphans| && orphans[j] == items[i];
        assert KeysOf(orphans)[j] == k;
      }
    }
  }

  /** The bucket refuses some deletions; each refusal is counted and the rest goes on. */
  method Apply(objects: MemoryBucket, orphans: seq<Key>, refused: set<Key>) returns (done: nat, failed: seq<Key>)
    modifies objects
    ensures done + |failed| == |orphans|
    ensures forall k :: k in failed <==> k in orphans && k in refused
    ensures objects.objects == old(objects.objects) - (set k | k in orphans && k !in refused)
  {
    done, failed := 0, [];
    for i := 0 to |orphans|
      invariant done + |failed| == i
      invariant forall k :: k in failed <==> k in orphans[..i] && k in refused
      invariant objects.objects == old(objects.objects) - (set k | k in orphans[..i] && k !in refused)
    {
      assert orphans[..i + 1] == orphans[..i] + [orphans[i]];
      if orphans[i] in refused {
        failed := failed + [orphans[i]];
        continue;
      }
      objects.Delete(orphans[i]);
      done := done + 1;
    }
    assert orphans[..|orphans|] == orphans;
  }
}
