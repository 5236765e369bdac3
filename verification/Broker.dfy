/** The broker's map of partitions: creation on demand, discovery at startup, and the topic listing. */
module Broker {
  import opened Bytes
  import opened Outcomes
  import opened Names
  import opened Directories

  /** An entry of the root directory. */
  datatype Dirent = Dirent(name: bytes, isDir: bool)

  /** The last component of a path. */
  function BaseOf(path: Path): bytes {
    if path == [] then [] else Last(path)
  }

  /** A directory and all those above it, which creating it creates. */
  function Ancestors(path: Path): set<Path> {
    set i: nat | 0 <= i <= |path| :: path[..i]
  }

  /** The stores found by a scan of the root, by key, each with its directory. */
  function Discovered(root: Path, entries: seq<Dirent>): map<bytes, Path> {
    if entries == [] then map[]
    else
      var e := entries[|entries| - 1];
      var rest := Discovered(root, entries[..|entries| - 1]);
      match if e.isDir then Parse(e.name) else None
      case None => rest
      case Some(tp) => rest[PartitionKey(tp) := root + [e.name]]
  }

  ghost function Keys(created: set<TopicPartition>): set<bytes> {
    set tp | tp in created :: PartitionKey(tp)
  }

  /**
   * The state after the partitions `created` have been created, and no others: each in its
   * own child of the root, among directories that are no partitions.
   */
  ghost predicate Exactly(root: Path, stores: map<bytes, Path>, dirs: set<Path>, created: set<TopicPartition>) {
    && (forall tp :: tp in created ==> Plain(tp))
    && stores.Keys == Keys(created)
    && (forall k :: k in stores ==> stores[k] == root + [k] && root + [k] in dirs)
    && forall name: bytes :: root + [name] in dirs ==> name in stores || Parse(name) == None
  }

  // ------------------------------------------------------------------- names

  lemma LastOfDir(root: Path, tp: TopicPartition)
    ensures BaseOf(DirOf(root, PartitionKey(tp))) == Last(Split(PartitionKey(tp)))
  {
    hide PartitionKey, Split, Kept;
    KeyEnds(tp);
    KeptLast(root, Split(PartitionKey(tp)));
  }

  lemma KeptLast(at: Path, comps: seq<bytes>)
    requires comps != [] && Kept(Last(comps))
    ensures BaseOf(Cleaned(at, comps)) == Last(comps)
  {
  }

  /** A topic read back from a name without a slash has none. */
  lemma ParsedTopic(name: bytes, tp: TopicPartition)
    requires SLASH !in name && Parse(name) == Some(tp)
    ensures SLASH !in tp.topic
  {
    hide LastDash, Value, AllDigits;
    assert tp.topic == name[..LastDash(name)];
  }

  /**
   * A partition is listed under its own name exactly when its topic is not empty and has
   * neither a newline nor a slash, and its number is not negative: the listing reads back
   * the last component of the directory the partition was given.
   */
  lemma ListedIff(root: Path, tp: TopicPartition)
    ensures Parse(BaseOf(DirOf(root, PartitionKey(tp)))) == Some(tp) <==> Plain(tp)
  {
    hide Parse, BaseOf, DirOf, Split, PartitionKey;
    var key := PartitionKey(tp);
    LastOfDir(root, tp);
    SplitParts(key);
    if SLASH in tp.topic {
      if Parse(Last(Split(key))) == Some(tp) {
        ParsedTopic(Last(Split(key)), tp);
        assert false;
      }
    } else {
      KeyHasNoSlash(tp);
      SplitWhole(key);
      NameRoundTrip(tp);
    }
  }

  // --------------------------------------------------------------- discovery

  lemma KeyParses(root: Path, created: set<TopicPartition>, key: bytes)
    requires key in Keys(created) && forall tp :: tp in created ==> Plain(tp)
    ensures Parse(key).Some? && PartitionKey(Parse(key).value) == key
  {
    hide Parse, PartitionKey, Plain;
    var tp :| tp in created && PartitionKey(tp) == key;
    PlainDir(root, tp);
  }

  /**
   * Scanning the root, in any order, among files and directories that are no partitions,
   * finds exactly the created partitions, each under its key and in its directory.
   */
  lemma {:induction false} DiscoveryFinds(root: Path, entries: seq<Dirent>, keys: set<bytes>,
      created: set<TopicPartition>)
    requires forall tp :: tp in created ==> Plain(tp)
    requires keys <= Keys(created)
    requires forall k :: k in keys ==> Dirent(k, true) in entries
    requires forall e :: e in entries && e.isDir && e.name !in keys ==> Parse(e.name) == None
    ensures Discovered(root, entries) == map k | k in keys :: root + [k]
  {
    hide Parse, PartitionKey, Plain, Keys;
    if entries == [] {
      assert keys == {};
    } else {
      var e, rest := entries[|entries| - 1], entries[..|entries| - 1];
      assert entries == rest + [e];
      if e.isDir && e.name in keys {
        KeyParses(root, created, e.name);
      }
      var keys' := set k | k in keys && Dirent(k, true) in rest;
      forall x | x in rest && x.isDir && x.name !in keys'
        ensures Parse(x.name) == None
      {
        assert x == Dirent(x.name, true) && x in entries;
      }
      DiscoveryFinds(root, rest, keys', created);
      assert keys == if e.isDir && e.name in keys then keys' + {e.name} else keys';
    }
  }

  // -------------------------------------------------------------- the object

  class BrokerStore {
    const root: Path
    /** Every directory on the disk. */
    var dirs: set<Path>
    /** Directory of each open partition store, by partition key. */
    var stores: map<bytes, Path>

    /** Opens every directory of the root whose name reads as a partition. */
    constructor (root: Path, disk: set<Path>, entries: seq<Dirent>)
      ensures this.root == root && dirs == disk
      ensures stores == Discovered(root, entries)
    {
      this.root := root;
      dirs := disk;
      var found: map<bytes, Path> := map[];
      for i := 0 to |entries|
        invariant found == Discovered(root, entries[..i])
      {
        assert entries[..i + 1][..i] == entries[..i];
        var e := entries[i];
        if !e.isDir {
          continue;
        }
        var m := Match(e.name);
        if m == None {
          continue;
        }
        if !AllDigits(m.value.1) || Value(m.value.1) >= TWO31 {
          continue;
        }
        var tp := TopicPartition(m.value.0, Value(m.value.1));
        found := found[PartitionKey(tp) := root + [e.name]];
      }
      assert entries[..|entries|] == entries;
      stores := found;
    }

    /**
     * Returns the store's directory, creating directory and store when the key is new;
     * `found` tells that a new store was opened over a directory that was already there.
     */
    method GetOrCreatePartition(tp: TopicPartition) returns (dir: Path, found: bool)
      modifies this
      ensures stores == if PartitionKey(tp) in old(stores) then old(stores)
                        else old(stores)[PartitionKey(tp) := DirOf(root, PartitionKey(tp))]
      ensures PartitionKey(tp) in stores && dir == stores[PartitionKey(tp)]
      ensures dirs == if PartitionKey(tp) in old(stores) then old(dirs) else old(dirs) + Ancestors(dir)
      ensures found <==> PartitionKey(tp) !in old(stores) && dir in old(dirs)
      ensures forall created :: old(Exactly(root, stores, dirs, created)) && Plain(tp) ==>
                Exactly(root, stores, dirs, created + {tp}) && !found
    {
      hide PartitionKey, DirOf, Ancestors, Exactly, Plain;
      ghost var stores0, dirs0 := stores, dirs;
      var key := PartitionKey(tp);
      found := false;
      if key !in stores {
        var path := DirOf(root, key);
        found := path in dirs;
        dirs := dirs + Ancestors(path);
        stores := stores[key := path];
      }
      dir := stores[key];
      forall created | Exactly(root, stores0, dirs0, created) && Plain(tp)
        ensures Exactly(root, stores, dirs, created + {tp}) && !found
      {
        CreateKeepsExactly(root, stores0, dirs0, created, tp);
        if key !in stores0 {
          NewIsAbsent(root, stores0, dirs0, created, tp);
        }
      }
    }

    /** Lists the partitions by reading each store's directory name back. */
    method Topics() returns (out: seq<TopicPartition>)
      ensures forall tp :: tp in out <==> exists k :: k in stores && Parse(BaseOf(stores[k])) == Some(tp)
      ensures forall created :: Exactly(root, stores, dirs, created) ==>
                (set tp | tp in out) == created && |out| == |created|
    {
      hide Parse, Lists, Exactly, BaseOf;
      out := [];
      var rest := stores.Keys;
      ghost var done: set<bytes> := {};
      ListsNothing(stores);
      while rest != {}
        invariant rest + done == stores.Keys && rest !! done
        invariant Lists(stores, done, out)
        decreases rest
      {
        var k :| k in rest;
        rest := rest - {k};
        ListsMore(stores, done, k, out);
        done := done + {k};
        var tp := Parse(BaseOf(stores[k]));
        if tp == None {
          continue;
        }
        out := out + [tp.value];
      }
      ListsAll(stores, out);
      forall created | Exactly(root, stores, dirs, created)
        ensures (set tp | tp in out) == created && |out| == |created|
      {
        ListsExactly(root, stores, dirs, created, out);
      }
    }
  }

  // ---------------------------------------------------------------- creation

  /** The directory of a plain partition that is not open yet is not there: a new store starts empty. */
  lemma NewIsAbsent(root: Path, stores: map<bytes, Path>, dirs: set<Path>, created: set<TopicPartition>,
      tp: TopicPartition)
    requires Exactly(root, stores, dirs, created) && Plain(tp) && PartitionKey(tp) !in stores
    ensures DirOf(root, PartitionKey(tp)) !in dirs
  {
    hide PartitionKey, Parse, Plain, DirOf;
    PlainDir(root, tp);
  }

  lemma CreateKeepsExactly(root: Path, stores: map<bytes, Path>, dirs: set<Path>, created: set<TopicPartition>,
      tp: TopicPartition)
    requires Exactly(root, stores, dirs, created) && Plain(tp)
    ensures var key := PartitionKey(tp);
            Exactly(root,
                    if key in stores then stores else stores[key := DirOf(root, key)],
                    if key in stores then dirs else dirs + Ancestors(DirOf(root, key)),
                    created + {tp})
  {
    hide PartitionKey, Parse, Plain, DirOf, Ancestors;
    PlainDir(root, tp);
    var key := PartitionKey(tp);
    ChildAncestors(root, key);
    assert Keys(created + {tp}) == Keys(created) + {key};
  }

  /** Creating a child of the root adds no other child. */
  lemma ChildAncestors(root: Path, key: bytes)
    ensures root + [key] in Ancestors(root + [key])
    ensures forall name: bytes :: root + [name] in Ancestors(root + [key]) ==> name == key
  {
    var p := root + [key];
    assert p[..|p|] == p;
    forall name: bytes | root + [name] in Ancestors(p)
      ensures name == key
    {
      var i: nat :| 0 <= i <= |p| && p[..i] == root + [name];
      assert |p[..i]| == |root| + 1;
      assert (root + [name])[|root|] == name;
    }
  }

  // ----------------------------------------------------------------- listing

  /** `out` holds one entry for each readable store among the keys `done`. */
  ghost predicate Lists(stores: map<bytes, Path>, done: set<bytes>, out: seq<TopicPartition>)
    requires done <= stores.Keys
  {
    && (forall tp :: tp in out <==> exists k :: k in done && Parse(BaseOf(stores[k])) == Some(tp))
    && |out| == |set k | k in done && Parse(BaseOf(stores[k])).Some?|
  }

  lemma ListsNothing(stores: map<bytes, Path>)
    ensures Lists(stores, {}, [])
  {
    hide Parse, BaseOf;
  }

  lemma ListsMore(stores: map<bytes, Path>, done: set<bytes>, k: bytes, out: seq<TopicPartition>)
    requires done <= stores.Keys && k in stores && k !in done && Lists(stores, done, out)
    ensures Lists(stores, done + {k}, match Parse(BaseOf(stores[k])) case None => out case Some(tp) => out + [tp])
  {
    hide Parse, BaseOf;
    var before := set x | x in done && Parse(BaseOf(stores[x])).Some?;
    var after := set x | x in done + {k} && Parse(BaseOf(stores[x])).Some?;
    assert after == if Parse(BaseOf(stores[k])).Some? then before + {k} else before;
  }

  lemma ListsAll(stores: map<bytes, Path>, out: seq<TopicPartition>)
    requires Lists(stores, stores.Keys, out)
    ensures forall tp :: tp in out <==> exists k :: k in stores && Parse(BaseOf(stores[k])) == Some(tp)
  {
    hide Parse, BaseOf;
  }

  /** The directory of a created partition reads back as that partition. */
  lemma CreatedReadsBack(root: Path, stores: map<bytes, Path>, dirs: set<Path>, created: set<TopicPartition>,
      tp: TopicPartition)
    requires Exactly(root, stores, dirs, created) && tp in created
    ensures PartitionKey(tp) in stores && Parse(BaseOf(stores[PartitionKey(tp)])) == Some(tp)
  {
    hide PartitionKey, Parse, Plain, DirOf;
    PlainDir(root, tp);
    assert PartitionKey(tp) in Keys(created);
  }

  /** Every open store was opened for a created partition, and its directory reads back as that. */
  lemma OpenIsCreated(root: Path, stores: map<bytes, Path>, dirs: set<Path>, created: set<TopicPartition>, k: bytes)
      returns (tp: TopicPartition)
    requires Exactly(root, stores, dirs, created) && k in stores
    ensures tp in created && PartitionKey(tp) == k && Parse(BaseOf(stores[k])) == Some(tp)
  {
    hide PartitionKey, Parse, Plain, BaseOf;
    assert k in Keys(created);
    tp :| tp in created && PartitionKey(tp) == k;
    CreatedReadsBack(root, stores, dirs, created, tp);
  }

  lemma ListsExactly(root: Path, stores: map<bytes, Path>, dirs: set<Path>, created: set<TopicPartition>,
      out: seq<TopicPartition>)
    requires Exactly(root, stores, dirs, created) && Lists(stores, stores.Keys, out)
    ensures (set tp | tp in out) == created && |out| == |created|
  {
    hide Exactly, Parse, PartitionKey, BaseOf, Plain;
    forall tp
      ensures tp in out <==> tp in created
    {
      if tp in created {
        CreatedReadsBack(root, stores, dirs, created, tp);
      }
      if tp in out {
        var k :| k in stores && Parse(BaseOf(stores[k])) == Some(tp);
        var q := OpenIsCreated(root, stores, dirs, created, k);
      }
    }
    ListsCount(root, stores, dirs, created);
  }

  lemma ListsCount(root: Path, stores: map<bytes, Path>, dirs: set<Path>, created: set<TopicPartition>)
    requires Exactly(root, stores, dirs, created)
    ensures |set k | k in stores.Keys && Parse(BaseOf(stores[k])).Some?| == |created|
  {
    hide Parse, PartitionKey, BaseOf, Plain;
    forall k | k in stores
      ensures Parse(BaseOf(stores[k])).Some?
    {
      var q := OpenIsCreated(root, stores, dirs, created, k);
    }
    assert (set k | k in stores.Keys && Parse(BaseOf(stores[k])).Some?) == Keys(created);
    SameCount(created);
  }

  lemma {:induction false} SameCount(created: set<TopicPartition>)
    requires forall tp :: tp in created ==> Plain(tp)
    ensures |Keys(created)| == |created|
  {
    hide PartitionKey, Parse;
    if created != {} {
      var tp :| tp in created;
      var rest := created - {tp};
      SameCount(rest);
      forall q | q in rest
        ensures PartitionKey(q) != PartitionKey(tp)
      {
        if PartitionKey(q) == PartitionKey(tp) {
          KeysInjective(q, tp);
        }
      }
      assert created == rest + {tp};
      assert Keys(created) == Keys(rest) + {PartitionKey(tp)};
    }
  }

  /** After a reopen over the same directories, the stores, and so the listing, are what they were. */
  lemma ReopenRestores(root: Path, stores: map<bytes, Path>, dirs: set<Path>, created: set<TopicPartition>,
      entries: seq<Dirent>)
    requires Exactly(root, stores, dirs, created)
    requires forall d: bytes :: root + [d] in dirs <==> Dirent(d, true) in entries
    ensures Discovered(root, entries) == stores
    ensures Exactly(root, Discovered(root, entries), dirs, created)
  {
    hide PartitionKey, Plain, Parse;
    forall e | e in entries && e.isDir && e.name !in stores.Keys
      ensures Parse(e.name) == None
    {
      assert e == Dirent(e.name, true) && root + [e.name] in dirs;
    }
    forall k | k in stores.Keys
      ensures Dirent(k, true) in entries
    {
      assert root + [k] in dirs;
    }
    DiscoveryFinds(root, entries, stores.Keys, created);
  }
}
