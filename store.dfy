/** The notification store: an in-memory map from id to record, flushed as
    a whole to one file after every insertion and rebuilt from that file at
    start-up. */
module Store {
  import opened Wrappers
  import opened Notifications
  import opened Persistence

  /** Number of hex digits of the payload's digest kept in an id. */
  const HashPrefixLength: nat := 10

  /** First `n` characters of `s`, or all of `s` when it is shorter
      (slicing past the end of a string does not fail). */
  function Prefix(s: string, n: nat): (r: string)
    ensures |r| == if |s| < n then |s| else n
    ensures r <= s
  {
    if |s| <= n then s else s[..n]
  }

  /** An id: a random token, a dash, and the first ten hex digits of the
      payload's digest. The token stands for the text of a fresh random
      UUID; the digest for the hex SHA-256 of the payload. */
  function NotificationId(token: string, digest: string): (id: string)
    ensures |id| == |token| + 1 + |Prefix(digest, HashPrefixLength)|
    ensures id[..|token|] == token
    ensures id[|id| - (|Prefix(digest, HashPrefixLength)| + 1)..] == "-" + Prefix(digest, HashPrefixLength)
  {
    token + "-" + Prefix(digest, HashPrefixLength)
  }

  /** For a digest of at least ten characters (a hex SHA-256 digest has
      64), a generated id ends with a dash followed by exactly the first
      ten characters of the digest. */
  lemma IdEndsWithDigestPrefix(token: string, digest: string)
    requires |digest| >= HashPrefixLength
    ensures var id := NotificationId(token, digest);
      |id| == |token| + 1 + HashPrefixLength &&
      id[|id| - (HashPrefixLength + 1)..] == "-" + digest[..HashPrefixLength]
  {
    var id := NotificationId(token, digest);
    assert id[|token|..] == "-" + digest[..HashPrefixLength];
  }

  /** Ids are not derived from the payload alone: two tokens of the same
      length (random UUID texts all have 36 characters) give different
      ids even for the same payload, so identical payloads are never
      merged. */
  lemma DistinctTokensGiveDistinctIds(t1: string, t2: string, d1: string, d2: string)
    requires |t1| == |t2| && t1 != t2
    ensures NotificationId(t1, d1) != NotificationId(t2, d2)
  {
    var id1, id2 := NotificationId(t1, d1), NotificationId(t2, d2);
    assert id1[..|t1|] == t1;
    assert id2[..|t2|] == t2;
  }

  /** The map after filing `n` under `id`, with its id field set to `id`. */
  function Added(m: map<string, Notification>, id: string, n: Notification): (m': map<string, Notification>)
    ensures m'.Keys == m.Keys + {id}
    ensures m'[id] == Notification(n.payload, n.name, n.description, id)
    ensures forall k :: k in m && k != id ==> m'[k] == m[k]
  {
    m[id := n.(id := id)]
  }

  /** Filing a record under a fresh id adds exactly that key, stores the
      given fields under it, keeps every other entry and keeps the store
      invariant. */
  lemma AddedProperties(m: map<string, Notification>, id: string, n: Notification)
    requires IdsMatchKeys(m)
    requires id !in m
    ensures var m' := Added(m, id, n);
      && m'.Keys == m.Keys + {id}
      && |m'| == |m| + 1
      && m'[id] == Notification(n.payload, n.name, n.description, id)
      && (forall k :: k in m ==> m'[k] == m[k])
      && IdsMatchKeys(m')
  {
    var m' := Added(m, id, n);
    assert m'.Keys == m.Keys + {id};
  }

  /** The store after a series of additions, in order. */
  function Replay(m: map<string, Notification>, adds: seq<(string, Notification)>): map<string, Notification>
    decreases |adds|
  {
    if adds == [] then m
    else Replay(Added(m, adds[0].0, adds[0].1), adds[1..])
  }

  ghost predicate FreshIds(m: map<string, Notification>, adds: seq<(string, Notification)>)
  {
    && (forall i :: 0 <= i < |adds| ==> adds[i].0 !in m)
    && (forall i, j :: 0 <= i < j < |adds| ==> adds[i].0 != adds[j].0)
  }

  /** n additions under pairwise distinct fresh ids to a store holding m
      leave |m| + n entries: the old ones, and each added record under its
      own id. */
  lemma {:induction false} ReplayAddsEach(m: map<string, Notification>, adds: seq<(string, Notification)>)
    requires IdsMatchKeys(m)
    requires FreshIds(m, adds)
    decreases |adds|
    ensures var r := Replay(m, adds);
      && IdsMatchKeys(r)
      && |r| == |m| + |adds|
      && (forall k :: k in m ==> k in r && r[k] == m[k])
      && (forall i :: 0 <= i < |adds| ==> adds[i].0 in r && r[adds[i].0] == adds[i].1.(id := adds[i].0))
  {
    if adds != [] {
      var m1 := Added(m, adds[0].0, adds[0].1);
      AddedProperties(m, adds[0].0, adds[0].1);
      assert FreshIds(m1, adds[1..]) by {
        forall i | 0 <= i < |adds[1..]|
          ensures adds[1..][i].0 !in m1
        {
          assert adds[1..][i] == adds[i + 1];
        }
      }
      ReplayAddsEach(m1, adds[1..]);
      var r := Replay(m, adds);
      forall i | 0 <= i < |adds|
        ensures adds[i].0 in r && r[adds[i].0] == adds[i].1.(id := adds[i].0)
      {
        if i > 0 {
          assert adds[1..][i - 1] == adds[i];
        }
      }
    }
  }

  /** n successful additions to an empty store leave exactly n records. */
  lemma AddsToEmptyStore(adds: seq<(string, Notification)>)
    requires forall i, j :: 0 <= i < j < |adds| ==> adds[i].0 != adds[j].0
    ensures |Replay(map[], adds)| == |adds|
  {
    ReplayAddsEach(map[], adds);
  }

  /** The file the store is persisted to; `None` when it does not exist. */
  class Disk {
    var file: Option<Json>

    constructor (file: Option<Json>)
      ensures this.file == file
    {
      this.file := file;
    }
  }

  class NotificationStore {
    const disk: Disk
    /** Hex digest of a payload (hex SHA-256 of the payload's UTF-8 bytes). */
    const hexDigest: string -> string
    var store: map<string, Notification>

    ghost predicate Valid()
      reads this
    {
      IdsMatchKeys(store)
    }

    constructor FromLoaded(disk: Disk, hexDigest: string -> string, loaded: map<string, Notification>)
      requires IdsMatchKeys(loaded)
      ensures Valid()
      ensures this.disk == disk && this.hexDigest == hexDigest && store == loaded
    {
      this.disk := disk;
      this.hexDigest := hexDigest;
      store := loaded;
    }

    /** Reads the file: no file gives an empty map; otherwise every entry
        is rebuilt as a record whose id is forced to its key, and one entry
        that does not fit aborts the load. */
    static method DiskLoad(disk: Disk) returns (r: Result<map<string, Notification>, LoadError>)
      ensures r == LoadFile(disk.file)
      ensures r.Ok? ==> IdsMatchKeys(r.value)
    {
      if disk.file.None? {
        return Ok(map[]);
      }
      var doc := disk.file.value;
      if !doc.JObject? {
        return Err(NotAnObject);
      }
      var data := doc.fields;
      var pending := data.Keys;
      var loaded: map<string, Notification> := map[];
      while pending != {}
        invariant pending <= data.Keys
        invariant loaded.Keys == data.Keys - pending
        invariant forall k :: k in loaded ==> DecodeRecord(k, data[k]) == Some(loaded[k])
        decreases pending
      {
        var k :| k in pending;
        var notif := DecodeRecord(k, data[k]);
        if notif.None? {
          assert DecodeEntries(data, DecodeRecord).None?;
          return Err(MalformedRecord);
        }
        loaded := loaded[k := notif.value];
        pending := pending - {k};
      }
      assert DecodeEntries(data, DecodeRecord).Some?;
      assert loaded == DecodeDocument(doc).value;
      return Ok(loaded);
    }

    /** Start-up: the store holds what the file holds, or nothing when
        there is no file; a file that cannot be loaded is an error. */
    static method Open(disk: Disk, hexDigest: string -> string) returns (r: Result<NotificationStore, LoadError>)
      ensures r.Err? <==> LoadFile(disk.file).Err?
      ensures r.Err? ==> r.error == LoadFile(disk.file).error
      ensures r.Ok? ==> && fresh(r.value) && r.value.Valid()
                        && r.value.disk == disk && r.value.hexDigest == hexDigest
                        && r.value.store == LoadFile(disk.file).value
    {
      var loaded := DiskLoad(disk);
      if loaded.Err? {
        return Err(loaded.error);
      }
      var s := new NotificationStore.FromLoaded(disk, hexDigest, loaded.value);
      return Ok(s);
    }

    /** Writes the whole map to the file, replacing what it held. */
    method DiskDump()
      requires Valid()
      modifies disk
      ensures disk.file == Some(EncodeStore(store))
      ensures LoadFile(disk.file) == Ok(store)
    {
      disk.file := Some(EncodeStore(store));
      LoadAfterSave(store);
    }

    /** Files `notif` under a new id made from `token` and the payload's
        digest, flushes the store to the file and returns the id. */
    method AddNotification(notif: Notification, token: string) returns (id: string)
      requires Valid()
      modifies this, disk
      ensures Valid()
      ensures id == NotificationId(token, hexDigest(notif.payload))
      ensures id[|id| - (|Prefix(hexDigest(notif.payload), HashPrefixLength)| + 1)..]
              == "-" + Prefix(hexDigest(notif.payload), HashPrefixLength)
      ensures store == Added(old(store), id, notif)
      ensures disk.file == Some(EncodeStore(store))
      ensures LoadFile(disk.file) == Ok(store)
    {
      id := NotificationId(token, hexDigest(notif.payload));
      store := store[id := notif.(id := id)];
      DiskDump();
    }

    /** Point lookup; a miss is a normal outcome. */
    function Get(notifId: string): (r: Option<Notification>)
      reads this
      ensures r.Some? <==> notifId in store
      ensures r.Some? ==> r.value == store[notifId]
      ensures Valid() && r.Some? ==> r.value.id == notifId
    {
      if notifId in store then Some(store[notifId]) else None
    }

    /** Every stored record once, in no particular order. */
    method IterNotifs() returns (r: seq<Notification>)
      requires Valid()
      ensures |r| == |store| == |store.Values|
      ensures forall i :: 0 <= i < |r| ==> r[i].id in store && store[r[i].id] == r[i]
      ensures forall k :: k in store ==> store[k] in r
      ensures forall i, j :: 0 <= i < j < |r| ==> r[i] != r[j]
    {
      var pending := store.Keys;
      r := [];
      while pending != {}
        invariant pending <= store.Keys
        invariant |r| + |pending| == |store|
        invariant forall i :: 0 <= i < |r| ==> r[i].id in store.Keys - pending && store[r[i].id] == r[i]
        invariant forall k :: k in store.Keys - pending ==> store[k] in r
        invariant forall i, j :: 0 <= i < j < |r| ==> r[i].id != r[j].id
        decreases pending
      {
        var k :| k in pending;
        r := r + [store[k]];
        pending := pending - {k};
      }
      ValuesCountKeys(store);
    }
  }
}
