/**
 * The S3 bucket-content destruction workflow (`destroy_bucket_contents`): delete the
 * selected live objects, then every selected object version (delete markers included),
 * then, on request, the bucket itself if no live object is left. A dry run reports
 * what would be deleted and issues no delete request at all.
 *
 * The storage provider is the class `Bucket`: its fields are the bucket's live keys,
 * its version records, whether it is versioned, and the log of delete requests it
 * has received. The script's functions are the methods below, each proved against
 * a function on the abstract `State`; the properties of the workflow are lemmas
 * about those functions.
 */
module BucketCleanup {
  import opened Wrappers
  import opened Seqs
  import opened Strings

  // ---------------------------------------------------------------------------
  // Data model
  // ---------------------------------------------------------------------------

  /** A version id: one the bucket already held, or the id of a delete marker the
      provider created during this run (numbered in creation order). */
  datatype VersionId = Existing(id: string) | NewMarker(serial: nat)

  /** One entry of the version listing: a (key, versionId) pair. */
  datatype VersionRecord = VersionRecord(key: string, versionId: VersionId)

  /** A destructive call received by the provider. */
  datatype Request =
    | DeleteObjectRequest(key: string)
    | DeleteVersionRequest(record: VersionRecord)
    | DeleteBucketRequest

  /** The abstract value of a bucket. `live` is the object listing (no key twice). */
  datatype BucketState = BucketState(
    live: seq<string>,
    versions: seq<VersionRecord>,
    versioned: bool,
    markersIssued: nat,
    present: bool,
    requests: seq<Request>)

  /** What the provider guarantees of every bucket: listings never repeat an entry
      and every delete marker it created has a serial below its counter. */
  predicate Consistent(st: BucketState)
  {
    && NoDup(st.live)
    && NoDup(st.versions)
    && forall v {:trigger SerialBelow(v, st.markersIssued)} | v in st.versions :: SerialBelow(v, st.markersIssued)
  }

  /** A record that is a delete marker of this run has a serial below `n`. */
  predicate SerialBelow(v: VersionRecord, n: nat)
  {
    v.versionId.NewMarker? ==> v.versionId.serial < n
  }

  /** The provider error every phase runs into when the bucket does not exist. */
  datatype Error = NoSuchBucket

  /** A line printed by the script, abstracted from its exact text. */
  datatype Line =
    | SelectingAllObjects(objectsFile: Option<string>)
    | SelectingListedObjects(objectsFile: Option<string>)
    | ObjectLine(dryrun: bool, key: string)
    | VersionLine(dryrun: bool, key: string)
    | DryrunSkipsBucketDeletion
    | AttemptingBucketDeletion
    | EmptyButDryrun
    | EmptyDeletingBucket
    | NotEmptySkipping

  /** A filesystem entry as `os.path.exists` / `os.path.isfile` see it. */
  datatype FsEntry = RegularFile(content: string) | Directory | OtherEntry

  // ---------------------------------------------------------------------------
  // Object selection
  // ---------------------------------------------------------------------------

  /** `parse_objects_file`: `None` unless the path is given and names an existing
      regular file; otherwise one entry per line of the file, in file order, with
      trailing whitespace removed. */
  function ParseObjectsFile(filepath: Option<string>, fs: map<string, FsEntry>): (r: Option<seq<string>>)
    ensures r.Some? <==> filepath.Some? && filepath.value in fs && fs[filepath.value].RegularFile?
    ensures r.Some? ==>
      var lines := ReadLines(fs[filepath.value].content);
      |r.value| == |lines| && forall i :: 0 <= i < |lines| ==> r.value[i] == RStrip(lines[i])
  {
    if filepath.Some? && filepath.value in fs && fs[filepath.value].RegularFile? then
      var lines := ReadLines(fs[filepath.value].content);
      Some(seq(|lines|, i requires 0 <= i < |lines| => RStrip(lines[i])))
    else
      None
  }

  /** The selector test of both deletion phases: a missing or empty objects list
      selects every key, a non-empty one exactly its members. */
  predicate Selects(objects: Option<seq<string>>, key: string)
  {
    match objects
    case None => true
    case Some(keys) => keys == [] || key in keys
  }

  function SelectedKeys(keys: seq<string>, objects: Option<seq<string>>): (r: seq<string>)
    ensures |r| <= |keys|
  {
    if keys == [] then []
    else
      var k := keys[|keys| - 1];
      SelectedKeys(keys[..|keys| - 1], objects) + (if Selects(objects, k) then [k] else [])
  }

  function UnselectedKeys(keys: seq<string>, objects: Option<seq<string>>): (r: seq<string>)
    ensures |r| <= |keys|
  {
    if keys == [] then []
    else
      var k := keys[|keys| - 1];
      UnselectedKeys(keys[..|keys| - 1], objects) + (if Selects(objects, k) then [] else [k])
  }

  function SelectedVersions(vs: seq<VersionRecord>, objects: Option<seq<string>>): (r: seq<VersionRecord>)
    ensures |r| <= |vs|
  {
    if vs == [] then []
    else
      var v := vs[|vs| - 1];
      SelectedVersions(vs[..|vs| - 1], objects) + (if Selects(objects, v.key) then [v] else [])
  }

  function UnselectedVersions(vs: seq<VersionRecord>, objects: Option<seq<string>>): (r: seq<VersionRecord>)
    ensures |r| <= |vs|
  {
    if vs == [] then []
    else
      var v := vs[|vs| - 1];
      UnselectedVersions(vs[..|vs| - 1], objects) + (if Selects(objects, v.key) then [] else [v])
  }

  /** The version records of one key, in listing order. */
  function RecordsOf(vs: seq<VersionRecord>, key: string): (r: seq<VersionRecord>)
    ensures |r| <= |vs|
  {
    if vs == [] then []
    else
      var v := vs[|vs| - 1];
      RecordsOf(vs[..|vs| - 1], key) + (if v.key == key then [v] else [])
  }

  lemma {:induction false} SelectedKeysMembers(keys: seq<string>, objects: Option<seq<string>>, k: string)
    ensures k in SelectedKeys(keys, objects) <==> k in keys && Selects(objects, k)
  {
    if keys != [] {
      SelectedKeysMembers(keys[..|keys| - 1], objects, k);
      assert keys == keys[..|keys| - 1] + [keys[|keys| - 1]];
    }
  }

  lemma {:induction false} UnselectedKeysMembers(keys: seq<string>, objects: Option<seq<string>>, k: string)
    ensures k in UnselectedKeys(keys, objects) <==> k in keys && !Selects(objects, k)
  {
    if keys != [] {
      UnselectedKeysMembers(keys[..|keys| - 1], objects, k);
      assert keys == keys[..|keys| - 1] + [keys[|keys| - 1]];
    }
  }

  lemma {:induction false} SelectedVersionsMembers(vs: seq<VersionRecord>, objects: Option<seq<string>>, v: VersionRecord)
    ensures v in SelectedVersions(vs, objects) <==> v in vs && Selects(objects, v.key)
  {
    if vs != [] {
      SelectedVersionsMembers(vs[..|vs| - 1], objects, v);
      assert vs == vs[..|vs| - 1] + [vs[|vs| - 1]];
    }
  }

  lemma {:induction false} UnselectedVersionsMembers(vs: seq<VersionRecord>, objects: Option<seq<string>>, v: VersionRecord)
    ensures v in UnselectedVersions(vs, objects) <==> v in vs && !Selects(objects, v.key)
  {
    if vs != [] {
      UnselectedVersionsMembers(vs[..|vs| - 1], objects, v);
      assert vs == vs[..|vs| - 1] + [vs[|vs| - 1]];
    }
  }

  lemma {:induction false} RecordsOfMembers(vs: seq<VersionRecord>, key: string, v: VersionRecord)
    ensures v in RecordsOf(vs, key) <==> v in vs && v.key == key
  {
    if vs != [] {
      RecordsOfMembers(vs[..|vs| - 1], key, v);
      assert vs == vs[..|vs| - 1] + [vs[|vs| - 1]];
    }
  }

  // ---------------------------------------------------------------------------
  // The provider's effects and the phases, on abstract states
  // ---------------------------------------------------------------------------

  function Marker(key: string, serial: nat): VersionRecord
  {
    VersionRecord(key, NewMarker(serial))
  }

  /** The delete markers a versioned bucket appends when `keys` are deleted in turn. */
  function Markers(keys: seq<string>, first: nat): (r: seq<VersionRecord>)
    ensures |r| == |keys|
    ensures forall i :: 0 <= i < |keys| ==> r[i] == Marker(keys[i], first + i)
  {
    seq(|keys|, i requires 0 <= i < |keys| => Marker(keys[i], first + i))
  }

  function ObjectRequests(keys: seq<string>): seq<Request>
  {
    seq(|keys|, i requires 0 <= i < |keys| => DeleteObjectRequest(keys[i]))
  }

  function VersionRequests(vs: seq<VersionRecord>): seq<Request>
  {
    seq(|vs|, i requires 0 <= i < |vs| => DeleteVersionRequest(vs[i]))
  }

  /** The effect of one `DeleteObject` call. */
  function AfterDeleteObject(st: BucketState, key: string): BucketState
  {
    st.(live := Without(st.live, key),
        versions := if st.versioned then st.versions + [Marker(key, st.markersIssued)] else st.versions,
        markersIssued := if st.versioned then st.markersIssued + 1 else st.markersIssued,
        requests := st.requests + [DeleteObjectRequest(key)])
  }

  /** The effect of one `DeleteVersion` call. */
  function AfterDeleteVersion(st: BucketState, v: VersionRecord): BucketState
  {
    st.(versions := Without(st.versions, v),
        requests := st.requests + [DeleteVersionRequest(v)])
  }

  /** The bucket after the keys `picked` were deleted in turn from `st0`, with `live`
      the live listing that is left. */
  function ObjectsOutcome(st0: BucketState, picked: seq<string>, live: seq<string>): BucketState
  {
    st0.(live := live,
         versions := if st0.versioned then st0.versions + Markers(picked, st0.markersIssued) else st0.versions,
         markersIssued := if st0.versioned then st0.markersIssued + |picked| else st0.markersIssued,
         requests := st0.requests + ObjectRequests(picked))
  }

  /** The state once the object phase has handled the first `done` keys of the
      listing it started from (`st0.live`). */
  function ObjectsProgress(st0: BucketState, done: nat, objects: Option<seq<string>>): BucketState
    requires done <= |st0.live|
  {
    ObjectsOutcome(st0, SelectedKeys(st0.live[..done], objects),
                   UnselectedKeys(st0.live[..done], objects) + st0.live[done..])
  }

  /** The bucket after the records `picked` were deleted in turn from `st0`, with
      `versions` the version listing that is left. */
  function VersionsOutcome(st0: BucketState, picked: seq<VersionRecord>, versions: seq<VersionRecord>): BucketState
  {
    st0.(versions := versions, requests := st0.requests + VersionRequests(picked))
  }

  /** The state once the version phase has handled the first `done` records of the
      listing it started from (`st0.versions`). */
  function VersionsProgress(st0: BucketState, done: nat, objects: Option<seq<string>>): BucketState
    requires done <= |st0.versions|
  {
    VersionsOutcome(st0, SelectedVersions(st0.versions[..done], objects),
                    UnselectedVersions(st0.versions[..done], objects) + st0.versions[done..])
  }

  /** The live-object phase: every selected listed key is deleted, in listing order;
      a versioned bucket records one delete marker per deleted key. */
  function ObjectsPhase(st: BucketState, objects: Option<seq<string>>, dryrun: bool): BucketState
  {
    if dryrun then st
    else
      ObjectsOutcome(st, SelectedKeys(st.live, objects), UnselectedKeys(st.live, objects))
  }

  /** The version phase, over the version listing as it stands when it starts. */
  function VersionsPhase(st: BucketState, objects: Option<seq<string>>, dryrun: bool): BucketState
  {
    if dryrun then st
    else
      VersionsOutcome(st, SelectedVersions(st.versions, objects), UnselectedVersions(st.versions, objects))
  }

  /** The bucket phase: the bucket goes only when it has no live object and this is
      not a dry run. Remaining version records are not consulted. */
  function DestroyPhase(st: BucketState, dryrun: bool): BucketState
  {
    if st.live == [] && !dryrun then st.(present := false, requests := st.requests + [DeleteBucketRequest])
    else st
  }

  /** A whole run. On a missing bucket the first listing fails and nothing changes. */
  function Run(st: BucketState, objects: Option<seq<string>>, dryrun: bool, destroyBucket: bool): BucketState
  {
    if !st.present then st
    else
      var cleaned := VersionsPhase(ObjectsPhase(st, objects, dryrun), objects, dryrun);
      if destroyBucket then DestroyPhase(cleaned, dryrun) else cleaned
  }

  // ---------------------------------------------------------------------------
  // What a run prints
  // ---------------------------------------------------------------------------

  function ObjectReports(keys: seq<string>, dryrun: bool): seq<Line>
  {
    seq(|keys|, i requires 0 <= i < |keys| => ObjectLine(dryrun, keys[i]))
  }

  function VersionReports(vs: seq<VersionRecord>, dryrun: bool): seq<Line>
  {
    seq(|vs|, i requires 0 <= i < |vs| => VersionLine(dryrun, vs[i].key))
  }

  function SelectionReport(objectsFile: Option<string>, objects: Option<seq<string>>): Line
  {
    if objects.None? || objects.value == [] then SelectingAllObjects(objectsFile)
    else SelectingListedObjects(objectsFile)
  }

  /** The lines of `destroy_bucket_if_empty`; `present` is false when the emptiness
      check itself fails. */
  function DestroyReports(present: bool, empty: bool, dryrun: bool, verbose: bool): seq<Line>
  {
    if !verbose then []
    else
      [if dryrun then DryrunSkipsBucketDeletion else AttemptingBucketDeletion] +
      (if !present then []
       else if empty then [if dryrun then EmptyButDryrun else EmptyDeletingBucket]
       else if dryrun then []
       else [NotEmptySkipping])
  }

  function RunReports(st: BucketState, objectsFile: Option<string>, objects: Option<seq<string>>,
                      dryrun: bool, verbose: bool, destroyBucket: bool): seq<Line>
  {
    var header := if verbose then [SelectionReport(objectsFile, objects)] else [];
    if !st.present then header
    else
      var afterObjects := ObjectsPhase(st, objects, dryrun);
      header
      + (if verbose then ObjectReports(SelectedKeys(st.live, objects), dryrun) else [])
      + (if verbose then VersionReports(SelectedVersions(afterObjects.versions, objects), dryrun) else [])
      + (if destroyBucket then DestroyReports(true, afterObjects.live == [], dryrun, verbose) else [])
  }

  // ---------------------------------------------------------------------------
  // The provider
  // ---------------------------------------------------------------------------

  /** The provider's side of one bucket: its listings, and the deletes it accepts. */
  class Bucket {
    var live: seq<string>
    var versions: seq<VersionRecord>
    const versioned: bool
    var markersIssued: nat
    var present: bool
    var requests: seq<Request>

    function State(): BucketState
      reads this
    {
      BucketState(live, versions, versioned, markersIssued, present, requests)
    }

    predicate Valid()
      reads this
    {
      Consistent(State())
    }

    /** An existing bucket holding `live` objects and the `versions` records. */
    constructor (live: seq<string>, versions: seq<VersionRecord>, versioned: bool)
      requires NoDup(live) && NoDup(versions)
      requires forall v | v in versions :: v.versionId.Existing?
      ensures Valid()
      ensures State() == BucketState(live, versions, versioned, 0, true, [])
    {
      this.live := live;
      this.versions := versions;
      this.versioned := versioned;
      this.markersIssued := 0;
      this.present := true;
      this.requests := [];
    }

    /** `bucket.Object(key).delete()`: the key leaves the listing; a versioned bucket
        records a new delete marker for it. */
    method DeleteObject(key: string)
      requires Valid() && present
      modifies this
      ensures Valid()
      ensures State() == AfterDeleteObject(old(State()), key)
    {
      NoDupWithout(live, key);
      live := Without(live, key);
      if versioned {
        var n, marker := markersIssued, Marker(key, markersIssued);
        forall v | v in versions
          ensures v != marker
        {
          assert SerialBelow(v, n);
        }
        NoDupSnoc(versions, marker);
        versions := versions + [marker];
        markersIssued := n + 1;
        forall v | v in versions
          ensures SerialBelow(v, markersIssued)
        {
          if v != marker {
            assert SerialBelow(v, n);
          }
        }
      }
      requests := requests + [DeleteObjectRequest(key)];
    }

    /** `version.delete()`: that one record leaves the version listing. */
    method DeleteVersion(v: VersionRecord)
      requires Valid() && present
      modifies this
      ensures Valid()
      ensures State() == AfterDeleteVersion(old(State()), v)
    {
      NoDupWithout(versions, v);
      forall w | w in Without(versions, v)
        ensures SerialBelow(w, markersIssued)
      {
        WithoutMembers(versions, v, w);
        assert SerialBelow(w, markersIssued);
      }
      versions := Without(versions, v);
      requests := requests + [DeleteVersionRequest(v)];
    }

    /** `bucket.delete()`. */
    method Delete()
      requires Valid() && present
      modifies this
      ensures Valid()
      ensures State() == old(State()).(present := false, requests := old(requests) + [DeleteBucketRequest])
    {
      present := false;
      requests := requests + [DeleteBucketRequest];
    }

    /** `bucket_is_empty`: whether the object listing is empty; version records are
        not looked at. Listing a missing bucket fails. */
    function IsEmpty(): (r: Result<bool, Error>)
      reads this
      ensures r.Success? <==> present
      ensures r.Success? ==> (r.value <==> |live| == 0)
    {
      if !present then Failure(NoSuchBucket) else Success(live == [])
    }
  }

  // ---------------------------------------------------------------------------
  // The script's operations
  // ---------------------------------------------------------------------------

  lemma KeysStep(keys: seq<string>, i: nat, objects: Option<seq<string>>)
    requires i < |keys|
    ensures SelectedKeys(keys[..i + 1], objects) ==
      SelectedKeys(keys[..i], objects) + (if Selects(objects, keys[i]) then [keys[i]] else [])
    ensures UnselectedKeys(keys[..i + 1], objects) ==
      UnselectedKeys(keys[..i], objects) + (if Selects(objects, keys[i]) then [] else [keys[i]])
  {
    assert keys[..i + 1][..i] == keys[..i];
  }

  lemma VersionsStep(vs: seq<VersionRecord>, i: nat, objects: Option<seq<string>>)
    requires i < |vs|
    ensures SelectedVersions(vs[..i + 1], objects) ==
      SelectedVersions(vs[..i], objects) + (if Selects(objects, vs[i].key) then [vs[i]] else [])
    ensures UnselectedVersions(vs[..i + 1], objects) ==
      UnselectedVersions(vs[..i], objects) + (if Selects(objects, vs[i].key) then [] else [vs[i]])
  {
    assert vs[..i + 1][..i] == vs[..i];
  }

  /** The live listing after one more iteration of the object loop. */
  lemma LiveStep(keys: seq<string>, i: nat, objects: Option<seq<string>>)
    requires NoDup(keys) && i < |keys|
    ensures var k, before := keys[i], UnselectedKeys(keys[..i], objects) + keys[i..];
      UnselectedKeys(keys[..i + 1], objects) + keys[i + 1..] ==
        if Selects(objects, k) then Without(before, k) else before
  {
    var k, done, rest := keys[i], UnselectedKeys(keys[..i], objects), keys[i + 1..];
    KeysStep(keys, i, objects);
    Isolated(keys, i);
    assert done + keys[i..] == done + [k] + rest;
    if Selects(objects, k) {
      UnselectedKeysMembers(keys[..i], objects, k);
      WithoutSingle(done, k, rest);
      assert done + [] == done;
    }
  }

  /** The version listing after one more iteration of the version loop. */
  lemma VersionListingStep(vs: seq<VersionRecord>, i: nat, objects: Option<seq<string>>)
    requires NoDup(vs) && i < |vs|
    ensures var v, before := vs[i], UnselectedVersions(vs[..i], objects) + vs[i..];
      UnselectedVersions(vs[..i + 1], objects) + vs[i + 1..] ==
        if Selects(objects, v.key) then Without(before, v) else before
  {
    var v, done, rest := vs[i], UnselectedVersions(vs[..i], objects), vs[i + 1..];
    VersionsStep(vs, i, objects);
    Isolated(vs, i);
    assert done + vs[i..] == done + [v] + rest;
    if Selects(objects, v.key) {
      UnselectedVersionsMembers(vs[..i], objects, v);
      WithoutSingle(done, v, rest);
      assert done + [] == done;
    }
  }

  lemma MarkersSnoc(keys: seq<string>, k: string, first: nat)
    ensures Markers(keys + [k], first) == Markers(keys, first) + [Marker(k, first + |keys|)]
  {
  }

  lemma ObjectRequestsSnoc(keys: seq<string>, k: string)
    ensures ObjectRequests(keys + [k]) == ObjectRequests(keys) + [DeleteObjectRequest(k)]
  {
  }

  lemma VersionRequestsSnoc(vs: seq<VersionRecord>, v: VersionRecord)
    ensures VersionRequests(vs + [v]) == VersionRequests(vs) + [DeleteVersionRequest(v)]
  {
  }

  lemma ObjectReportsSnoc(keys: seq<string>, k: string, dryrun: bool)
    ensures ObjectReports(keys + [k], dryrun) == ObjectReports(keys, dryrun) + [ObjectLine(dryrun, k)]
  {
  }

  lemma VersionReportsSnoc(vs: seq<VersionRecord>, v: VersionRecord, dryrun: bool)
    ensures VersionReports(vs + [v], dryrun) == VersionReports(vs, dryrun) + [VersionLine(dryrun, v.key)]
  {
  }

  /** The version listing and counter side of one more deleted key. */
  lemma MarkersAppend(base: seq<VersionRecord>, keys: seq<string>, k: string, first: nat)
    ensures base + Markers(keys + [k], first) == base + Markers(keys, first) + [Marker(k, first + |keys|)]
  {
    MarkersSnoc(keys, k, first);
    var m := Marker(k, first + |keys|);
    assert base + (Markers(keys, first) + [m]) == (base + Markers(keys, first)) + [m];
  }

  /** The request log side of one more deleted key. */
  lemma ObjectRequestsAppend(base: seq<Request>, keys: seq<string>, k: string)
    ensures base + ObjectRequests(keys + [k]) == base + ObjectRequests(keys) + [DeleteObjectRequest(k)]
  {
    ObjectRequestsSnoc(keys, k);
    var q := DeleteObjectRequest(k);
    assert base + (ObjectRequests(keys) + [q]) == (base + ObjectRequests(keys)) + [q];
  }

  /** Deleting one more key from an outcome extends it by that key. */
  lemma OutcomeSnoc(st0: BucketState, picked: seq<string>, live: seq<string>, k: string)
    ensures ObjectsOutcome(st0, picked + [k], Without(live, k)) ==
      AfterDeleteObject(ObjectsOutcome(st0, picked, live), k)
  {
    MarkersAppend(st0.versions, picked, k, st0.markersIssued);
    ObjectRequestsAppend(st0.requests, picked, k);
  }

  /** One iteration of the object loop. */
  lemma ObjectsProgressStep(st0: BucketState, i: nat, objects: Option<seq<string>>)
    requires NoDup(st0.live) && i < |st0.live|
    ensures var k := st0.live[i];
      ObjectsProgress(st0, i + 1, objects) ==
        if Selects(objects, k) then AfterDeleteObject(ObjectsProgress(st0, i, objects), k)
        else ObjectsProgress(st0, i, objects)
  {
    var k, picked := st0.live[i], SelectedKeys(st0.live[..i], objects);
    var before := UnselectedKeys(st0.live[..i], objects) + st0.live[i..];
    KeysStep(st0.live, i, objects);
    LiveStep(st0.live, i, objects);
    if Selects(objects, k) {
      OutcomeSnoc(st0, picked, before, k);
    } else {
      assert picked + [] == picked;
    }
  }

  /** Deleting one more record from an outcome extends it by that record. */
  lemma VersionOutcomeSnoc(st0: BucketState, picked: seq<VersionRecord>, versions: seq<VersionRecord>, v: VersionRecord)
    ensures VersionsOutcome(st0, picked + [v], Without(versions, v)) ==
      AfterDeleteVersion(VersionsOutcome(st0, picked, versions), v)
  {
    VersionRequestsSnoc(picked, v);
    var q := DeleteVersionRequest(v);
    assert st0.requests + (VersionRequests(picked) + [q]) == (st0.requests + VersionRequests(picked)) + [q];
  }

  /** One iteration of the version loop. */
  lemma VersionsProgressStep(st0: BucketState, i: nat, objects: Option<seq<string>>)
    requires NoDup(st0.versions) && i < |st0.versions|
    ensures var v := st0.versions[i];
      VersionsProgress(st0, i + 1, objects) ==
        if Selects(objects, v.key) then AfterDeleteVersion(VersionsProgress(st0, i, objects), v)
        else VersionsProgress(st0, i, objects)
  {
    var v, picked := st0.versions[i], SelectedVersions(st0.versions[..i], objects);
    var before := UnselectedVersions(st0.versions[..i], objects) + st0.versions[i..];
    VersionsStep(st0.versions, i, objects);
    VersionListingStep(st0.versions, i, objects);
    if Selects(objects, v.key) {
      VersionOutcomeSnoc(st0, picked, before, v);
    } else {
      assert picked + [] == picked;
    }
  }

  /** Before the object loop: nothing handled, nothing reported. */
  lemma ObjectsStart(st0: BucketState, objects: Option<seq<string>>, dryrun: bool)
    ensures ObjectsProgress(st0, 0, objects) == st0
    ensures ObjectReports(SelectedKeys(st0.live[..0], objects), dryrun) == []
  {
    assert st0.live[..0] == [] && st0.live[0..] == st0.live;
    assert st0.versions + Markers([], st0.markersIssued) == st0.versions;
    assert st0.requests + ObjectRequests([]) == st0.requests;
  }

  /** Before the version loop: nothing handled, nothing reported. */
  lemma VersionsStart(st0: BucketState, objects: Option<seq<string>>, dryrun: bool)
    ensures VersionsProgress(st0, 0, objects) == st0
    ensures VersionReports(SelectedVersions(st0.versions[..0], objects), dryrun) == []
  {
    assert st0.versions[..0] == [] && st0.versions[0..] == st0.versions;
    assert st0.requests + VersionRequests([]) == st0.requests;
  }

  /** The report lines after one more iteration of the object loop. */
  lemma ObjectReportsStep(listing: seq<string>, i: nat, objects: Option<seq<string>>, dryrun: bool)
    requires i < |listing|
    ensures ObjectReports(SelectedKeys(listing[..i + 1], objects), dryrun) ==
      ObjectReports(SelectedKeys(listing[..i], objects), dryrun)
      + (if Selects(objects, listing[i]) then [ObjectLine(dryrun, listing[i])] else [])
  {
    var picked := SelectedKeys(listing[..i], objects);
    KeysStep(listing, i, objects);
    ObjectReportsSnoc(picked, listing[i], dryrun);
    assert picked + [] == picked;
    assert ObjectReports(picked, dryrun) + [] == ObjectReports(picked, dryrun);
  }

  /** The report lines after one more iteration of the version loop. */
  lemma VersionReportsStep(listing: seq<VersionRecord>, i: nat, objects: Option<seq<string>>, dryrun: bool)
    requires i < |listing|
    ensures VersionReports(SelectedVersions(listing[..i + 1], objects), dryrun) ==
      VersionReports(SelectedVersions(listing[..i], objects), dryrun)
      + (if Selects(objects, listing[i].key) then [VersionLine(dryrun, listing[i].key)] else [])
  {
    var picked := SelectedVersions(listing[..i], objects);
    VersionsStep(listing, i, objects);
    VersionReportsSnoc(picked, listing[i], dryrun);
    assert picked + [] == picked;
    assert VersionReports(picked, dryrun) + [] == VersionReports(picked, dryrun);
  }

  lemma ObjectsProgressDone(st0: BucketState, objects: Option<seq<string>>)
    ensures ObjectsProgress(st0, |st0.live|, objects) == ObjectsPhase(st0, objects, false)
  {
    assert st0.live[..|st0.live|] == st0.live;
    assert UnselectedKeys(st0.live, objects) + st0.live[|st0.live|..] == UnselectedKeys(st0.live, objects);
  }

  lemma VersionsProgressDone(st0: BucketState, objects: Option<seq<string>>)
    ensures VersionsProgress(st0, |st0.versions|, objects) == VersionsPhase(st0, objects, false)
  {
    assert st0.versions[..|st0.versions|] == st0.versions;
    assert UnselectedVersions(st0.versions, objects) + st0.versions[|st0.versions|..] == UnselectedVersions(st0.versions, objects);
  }

  /** The bucket `st` and the printed `lines` once the object loop has visited the
      first `i` keys of the listing it started from (`st0.live`). */
  predicate ObjectsVisited(st: BucketState, lines: seq<Line>, st0: BucketState, i: nat,
                           objects: Option<seq<string>>, dryrun: bool, verbose: bool)
  {
    && i <= |st0.live| && NoDup(st0.live)
    && Consistent(st) && st.present
    && st == (if dryrun then st0 else ObjectsProgress(st0, i, objects))
    && lines == if verbose then ObjectReports(SelectedKeys(st0.live[..i], objects), dryrun) else []
  }

  /** One iteration of the object loop: the `i`-th key of the listing the phase
      started from is reported and, outside a dry run, deleted, when it is selected. */
  method VisitKey(b: Bucket, ghost st0: BucketState, listing: seq<string>, i: nat,
                  objects: Option<seq<string>>, dryrun: bool, verbose: bool, lines: seq<Line>)
    returns (lines': seq<Line>)
    requires listing == st0.live && i < |listing|
    requires ObjectsVisited(b.State(), lines, st0, i, objects, dryrun, verbose)
    modifies b
    ensures ObjectsVisited(b.State(), lines', st0, i + 1, objects, dryrun, verbose)
  {
    var key := listing[i];
    ObjectReportsStep(listing, i, objects, dryrun);
    lines' := lines;
    if !dryrun {
      ObjectsProgressStep(st0, i, objects);
    }
    if Selects(objects, key) {
      if verbose {
        lines' := lines + [ObjectLine(dryrun, key)];
      }
      if !dryrun {
        b.DeleteObject(key);
      }
    }
  }

  /** The bucket `st` and the printed `lines` once the version loop has visited the
      first `i` records of the listing it started from (`st0.versions`). */
  predicate VersionsVisited(st: BucketState, lines: seq<Line>, st0: BucketState, i: nat,
                            objects: Option<seq<string>>, dryrun: bool, verbose: bool)
  {
    && i <= |st0.versions| && NoDup(st0.versions)
    && Consistent(st) && st.present
    && st == (if dryrun then st0 else VersionsProgress(st0, i, objects))
    && lines == if verbose then VersionReports(SelectedVersions(st0.versions[..i], objects), dryrun) else []
  }

  /** One iteration of the version loop, on the `i`-th record of the listing the
      phase started from. */
  method VisitVersion(b: Bucket, ghost st0: BucketState, listing: seq<VersionRecord>, i: nat,
                      objects: Option<seq<string>>, dryrun: bool, verbose: bool, lines: seq<Line>)
    returns (lines': seq<Line>)
    requires listing == st0.versions && i < |listing|
    requires VersionsVisited(b.State(), lines, st0, i, objects, dryrun, verbose)
    modifies b
    ensures VersionsVisited(b.State(), lines', st0, i + 1, objects, dryrun, verbose)
  {
    var version := listing[i];
    VersionReportsStep(listing, i, objects, dryrun);
    lines' := lines;
    if !dryrun {
      VersionsProgressStep(st0, i, objects);
    }
    if Selects(objects, version.key) {
      if verbose {
        lines' := lines + [VersionLine(dryrun, version.key)];
      }
      if !dryrun {
        b.DeleteVersion(version);
      }
    }
  }

  /** `delete_objects`: walks the object listing taken when it starts and deletes
      (or, in a dry run, only reports) every selected key. */
  method DeleteObjects(b: Bucket, objects: Option<seq<string>>, dryrun: bool, verbose: bool)
    returns (outcome: Result<(), Error>, lines: seq<Line>)
    requires b.Valid()
    modifies b
    ensures b.Valid()
    ensures outcome.Success? <==> old(b.present)
    ensures b.State() == if old(b.present) then ObjectsPhase(old(b.State()), objects, dryrun) else old(b.State())
    ensures lines == if old(b.present) && verbose then ObjectReports(SelectedKeys(old(b.live), objects), dryrun) else []
  {
    if !b.present {
      return Failure(NoSuchBucket), [];
    }
    ghost var st0 := b.State();
    lines := VisitKeys(b, st0, b.live, objects, dryrun, verbose);
    ObjectsProgressDone(st0, objects);
    outcome := Success(());
  }

  /** The loop of `delete_objects` over the listing taken when the phase starts. */
  method VisitKeys(b: Bucket, ghost st0: BucketState, listing: seq<string>,
                   objects: Option<seq<string>>, dryrun: bool, verbose: bool)
    returns (lines: seq<Line>)
    requires b.Valid() && b.present && b.State() == st0 && listing == st0.live
    modifies b
    ensures b.Valid() && b.present
    ensures b.State() == if dryrun then st0 else ObjectsProgress(st0, |listing|, objects)
    ensures lines == if verbose then ObjectReports(SelectedKeys(listing, objects), dryrun) else []
  {
    ObjectsStart(st0, objects, dryrun);
    lines := [];
    var i := 0;
    while i < |listing|
      invariant i <= |listing| && listing == st0.live
      invariant ObjectsVisited(b.State(), lines, st0, i, objects, dryrun, verbose)
    {
      lines := VisitKey(b, st0, listing, i, objects, dryrun, verbose, lines);
      i := i + 1;
    }
    assert listing[..i] == listing;
  }

  /** `delete_versions`: walks the version listing taken when it starts, which
      therefore holds the delete markers the object phase created, and deletes
      (or only reports) every record of a selected key. */
  method DeleteVersions(b: Bucket, objects: Option<seq<string>>, dryrun: bool, verbose: bool)
    returns (outcome: Result<(), Error>, lines: seq<Line>)
    requires b.Valid()
    modifies b
    ensures b.Valid()
    ensures outcome.Success? <==> old(b.present)
    ensures b.State() == if old(b.present) then VersionsPhase(old(b.State()), objects, dryrun) else old(b.State())
    ensures lines == if old(b.present) && verbose then VersionReports(SelectedVersions(old(b.versions), objects), dryrun) else []
  {
    if !b.present {
      return Failure(NoSuchBucket), [];
    }
    ghost var st0 := b.State();
    lines := VisitVersions(b, st0, b.versions, objects, dryrun, verbose);
    VersionsProgressDone(st0, objects);
    outcome := Success(());
  }

  /** The loop of `delete_versions` over the listing taken when the phase starts. */
  method VisitVersions(b: Bucket, ghost st0: BucketState, listing: seq<VersionRecord>,
                       objects: Option<seq<string>>, dryrun: bool, verbose: bool)
    returns (lines: seq<Line>)
    requires b.Valid() && b.present && b.State() == st0 && listing == st0.versions
    modifies b
    ensures b.Valid() && b.present
    ensures b.State() == if dryrun then st0 else VersionsProgress(st0, |listing|, objects)
    ensures lines == if verbose then VersionReports(SelectedVersions(listing, objects), dryrun) else []
  {
    VersionsStart(st0, objects, dryrun);
    lines := [];
    var i := 0;
    while i < |listing|
      invariant i <= |listing| && listing == st0.versions
      invariant VersionsVisited(b.State(), lines, st0, i, objects, dryrun, verbose)
    {
      lines := VisitVersion(b, st0, listing, i, objects, dryrun, verbose, lines);
      i := i + 1;
    }
    assert listing[..i] == listing;
  }

  /** `destroy_bucket_if_empty`: status 0 when the bucket has no live object, 1
      otherwise; the bucket is deleted only when it is empty and this is not a dry run. */
  method DestroyBucketIfEmpty(b: Bucket, dryrun: bool, verbose: bool)
    returns (status: Result<int, Error>, lines: seq<Line>)
    requires b.Valid()
    modifies b
    ensures b.Valid()
    ensures !old(b.present) ==> status == Failure(NoSuchBucket)
    ensures old(b.present) ==> status == Success(if old(b.live) == [] then 0 else 1)
    ensures b.present <==> old(b.present) && (old(b.live) != [] || dryrun)
    ensures b.State() == if old(b.present) then DestroyPhase(old(b.State()), dryrun) else old(b.State())
    ensures lines == DestroyReports(old(b.present), old(b.live) == [], dryrun, verbose)
  {
    lines := [];
    if dryrun && verbose {
      lines := lines + [DryrunSkipsBucketDeletion];
    }
    if !dryrun && verbose {
      lines := lines + [AttemptingBucketDeletion];
    }
    var empty := b.IsEmpty();
    if empty.Failure? {
      return Failure(NoSuchBucket), lines;
    }
    if empty.value {
      if verbose {
        lines := lines + [if dryrun then EmptyButDryrun else EmptyDeletingBucket];
      }
      if !dryrun {
        b.Delete();
      }
      status := Success(0);
    } else {
      if verbose && !dryrun {
        lines := lines + [NotEmptySkipping];
      }
      status := Success(1);
    }
  }

  /** `destroy_bucket_contents`: resolve the selector once, then the object phase,
      the version phase and, if asked, the bucket phase, in that order. A dry run
      (the default) leaves the bucket exactly as it was. */
  method DestroyBucketContents(b: Bucket, objectsFile: Option<string>, fs: map<string, FsEntry>,
                               destroyBucket: bool, quiet: bool, noDryrun: bool)
    returns (outcome: Result<(), Error>, lines: seq<Line>)
    requires b.Valid()
    modifies b
    ensures b.Valid()
    ensures outcome.Success? <==> old(b.present)
    ensures b.State() == Run(old(b.State()), ParseObjectsFile(objectsFile, fs), !noDryrun, destroyBucket)
    ensures !noDryrun ==> b.State() == old(b.State())
    ensures lines == RunReports(old(b.State()), objectsFile, ParseObjectsFile(objectsFile, fs),
                                !noDryrun, !quiet, destroyBucket)
  {
    var verbose := !quiet;
    var dryrun := !noDryrun;
    var objectsToDestroy := ParseObjectsFile(objectsFile, fs);
    ghost var st0 := b.State();
    lines := [];
    if verbose {
      lines := [SelectionReport(objectsFile, objectsToDestroy)];
    }
    var more;
    outcome, more := DeleteObjects(b, objectsToDestroy, dryrun, verbose);
    lines := lines + more;
    if outcome.Failure? {
      return;
    }
    ghost var st1 := b.State();
    assert st1 == ObjectsPhase(st0, objectsToDestroy, dryrun);
    outcome, more := DeleteVersions(b, objectsToDestroy, dryrun, verbose);
    lines := lines + more;
    ghost var st2 := b.State();
    assert st2 == VersionsPhase(st1, objectsToDestroy, dryrun);
    assert st2.live == st1.live && st2.present;
    if destroyBucket {
      var status;
      status, more := DestroyBucketIfEmpty(b, dryrun, verbose);
      lines := lines + more;
      assert b.State() == DestroyPhase(st2, dryrun);
    }
  }

  // ---------------------------------------------------------------------------
  // Properties of the workflow
  // ---------------------------------------------------------------------------

  /** The safety invariant: a dry run issues no delete request and changes nothing. */
  lemma DryRunChangesNothing(st: BucketState, objects: Option<seq<string>>, destroyBucket: bool)
    ensures Run(st, objects, true, destroyBucket) == st
  {
  }

  /** The text of an objects file that lists `keys`, one per line. */
  function KeysFile(keys: seq<string>): string
  {
    Concat(seq(|keys|, i requires 0 <= i < |keys| => keys[i] + "\n"))
  }

  /** A key that survives being written as a line and read back: no newline in it,
      no whitespace at its end. */
  predicate PlainKey(k: string)
  {
    '\n' !in k && (k == [] || !IsSpace(k[|k| - 1]))
  }

  /** Writing keys one per line and parsing the file gives the keys back. */
  lemma ParseObjectsFileRoundTrip(path: string, fs: map<string, FsEntry>, keys: seq<string>)
    requires path in fs && fs[path] == RegularFile(KeysFile(keys))
    requires forall k | k in keys :: PlainKey(k)
    ensures ParseObjectsFile(Some(path), fs) == Some(keys)
  {
    var lines := seq(|keys|, i requires 0 <= i < |keys| => keys[i] + "\n");
    forall i | 0 <= i < |lines|
      ensures IsLine(lines[i]) && EndsWith(lines[i], "\n") && RStrip(lines[i]) == keys[i]
    {
      assert PlainKey(keys[i]);
      assert forall j :: 0 <= j < |keys[i]| ==> lines[i][j] == keys[i][j];
      RStripNewline(keys[i]);
    }
    ReadLinesOfConcat(lines);
    assert fs[path].content == Concat(lines);
    assert ReadLines(fs[path].content) == lines;
    var parsed := ParseObjectsFile(Some(path), fs).value;
    assert |parsed| == |keys|;
    assert forall i :: 0 <= i < |keys| ==> parsed[i] == keys[i];
    assert parsed == keys;
  }

  /** A request that deletes `key` or one of its versions. */
  predicate Mentions(q: Request, key: string)
  {
    || (q.DeleteObjectRequest? && q.key == key)
    || (q.DeleteVersionRequest? && q.record.key == key)
  }

  lemma {:induction false} NothingSelected(keys: seq<string>, objects: Option<seq<string>>)
    requires forall i | 0 <= i < |keys| :: !Selects(objects, keys[i])
    ensures SelectedKeys(keys, objects) == [] && UnselectedKeys(keys, objects) == keys
  {
    if keys != [] {
      var init, last := keys[..|keys| - 1], keys[|keys| - 1];
      assert forall i | 0 <= i < |init| :: init[i] == keys[i];
      NothingSelected(init, objects);
      assert SelectedKeys(keys, objects) == SelectedKeys(init, objects) + [];
      assert UnselectedKeys(keys, objects) == init + [last];
      assert keys == init + [last];
    }
  }

  lemma {:induction false} NoVersionSelected(vs: seq<VersionRecord>, objects: Option<seq<string>>)
    requires forall i | 0 <= i < |vs| :: !Selects(objects, vs[i].key)
    ensures SelectedVersions(vs, objects) == [] && UnselectedVersions(vs, objects) == vs
  {
    if vs != [] {
      var init, last := vs[..|vs| - 1], vs[|vs| - 1];
      assert forall i | 0 <= i < |init| :: init[i] == vs[i];
      NoVersionSelected(init, objects);
      assert SelectedVersions(vs, objects) == SelectedVersions(init, objects) + [];
      assert UnselectedVersions(vs, objects) == init + [last];
      assert vs == init + [last];
    }
  }

  /** Keeping the unselected records does not touch the records of an unselected key. */
  lemma {:induction false} RecordsOfUnselected(vs: seq<VersionRecord>, objects: Option<seq<string>>, key: string)
    requires !Selects(objects, key)
    ensures RecordsOf(UnselectedVersions(vs, objects), key) == RecordsOf(vs, key)
  {
    if vs != [] {
      var init, v := vs[..|vs| - 1], vs[|vs| - 1];
      RecordsOfUnselected(init, objects, key);
      if Selects(objects, v.key) {
        assert UnselectedVersions(vs, objects) == UnselectedVersions(init, objects) + [];
        assert UnselectedVersions(vs, objects) == UnselectedVersions(init, objects);
      } else {
        var u := UnselectedVersions(init, objects);
        assert (u + [v])[..|u|] == u;
      }
    }
  }

  lemma {:induction false} RecordsOfAppend(a: seq<VersionRecord>, b: seq<VersionRecord>, key: string)
    ensures RecordsOf(a + b, key) == RecordsOf(a, key) + RecordsOf(b, key)
  {
    if b == [] {
      assert a + b == a;
    } else {
      var init, v := b[..|b| - 1], b[|b| - 1];
      assert (a + b)[..|a + b| - 1] == a + init;
      RecordsOfAppend(a, init, key);
    }
  }

  /** The records of `key` among `vs`, when none of `vs` belongs to `key`. */
  lemma RecordsOfNone(vs: seq<VersionRecord>, key: string)
    requires forall v | v in vs :: v.key != key
    ensures RecordsOf(vs, key) == []
  {
    if RecordsOf(vs, key) != [] {
      RecordsOfMembers(vs, key, RecordsOf(vs, key)[0]);
    }
  }

  /** After a live run, a selected key has neither a live object nor any version
      record left, the delete markers the run itself created included. */
  lemma SelectedKeyCleared(st: BucketState, objects: Option<seq<string>>, key: string, destroyBucket: bool)
    requires st.present && Selects(objects, key)
    ensures var r := Run(st, objects, false, destroyBucket);
      key !in r.live && RecordsOf(r.versions, key) == []
  {
    var s1 := ObjectsPhase(st, objects, false);
    var s2 := VersionsPhase(s1, objects, false);
    UnselectedKeysMembers(st.live, objects, key);
    forall v | v in s2.versions
      ensures v.key != key
    {
      UnselectedVersionsMembers(s1.versions, objects, v);
    }
    RecordsOfNone(s2.versions, key);
  }

  /** After a live run, an unselected key keeps its live object and all its version
      records. */
  lemma UnselectedKeyUntouched(st: BucketState, objects: Option<seq<string>>, key: string, destroyBucket: bool)
    requires st.present && !Selects(objects, key)
    ensures var r := Run(st, objects, false, destroyBucket);
      && (key in r.live <==> key in st.live)
      && RecordsOf(r.versions, key) == RecordsOf(st.versions, key)
  {
    var s1 := ObjectsPhase(st, objects, false);
    var picked := SelectedKeys(st.live, objects);
    UnselectedKeysMembers(st.live, objects, key);
    RecordsOfUnselected(s1.versions, objects, key);
    if st.versioned {
      var markers := Markers(picked, st.markersIssued);
      forall m | m in markers
        ensures m.key != key
      {
        var i :| 0 <= i < |markers| && markers[i] == m;
        SelectedKeysMembers(st.live, objects, picked[i]);
      }
      RecordsOfNone(markers, key);
      RecordsOfAppend(st.versions, markers, key);
      assert RecordsOf(st.versions, key) + [] == RecordsOf(st.versions, key);
    }
  }

  /** The requests a live run adds to the log. */
  lemma RunRequests(st: BucketState, objects: Option<seq<string>>, destroyBucket: bool)
    requires st.present
    ensures var s1 := ObjectsPhase(st, objects, false);
      var r := Run(st, objects, false, destroyBucket);
      r.requests == st.requests + ObjectRequests(SelectedKeys(st.live, objects))
        + VersionRequests(SelectedVersions(s1.versions, objects))
        + (if destroyBucket && s1.live == [] then [DeleteBucketRequest] else [])
  {
  }

  /** Object deletes name only their own keys. */
  lemma ObjectRequestsAvoid(keys: seq<string>, key: string)
    requires key !in keys
    ensures forall q | q in ObjectRequests(keys) :: !Mentions(q, key)
  {
    forall q | q in ObjectRequests(keys)
      ensures !Mentions(q, key)
    {
      var i :| 0 <= i < |keys| && ObjectRequests(keys)[i] == q;
    }
  }

  /** Version deletes name only the keys of their own records. */
  lemma VersionRequestsAvoid(vs: seq<VersionRecord>, key: string)
    requires forall v | v in vs :: v.key != key
    ensures forall q | q in VersionRequests(vs) :: !Mentions(q, key)
  {
    forall q | q in VersionRequests(vs)
      ensures !Mentions(q, key)
    {
      var i :| 0 <= i < |vs| && VersionRequests(vs)[i] == q;
      assert vs[i] in vs;
    }
  }

  /** A live run issues no delete request that names an unselected key, and only
      appends to the request log. */
  lemma UnselectedKeyNotRequested(st: BucketState, objects: Option<seq<string>>, key: string, destroyBucket: bool)
    requires st.present && !Selects(objects, key)
    ensures var r := Run(st, objects, false, destroyBucket);
      && r.requests[..|st.requests|] == st.requests
      && forall j | |st.requests| <= j < |r.requests| :: !Mentions(r.requests[j], key)
  {
    var s1 := ObjectsPhase(st, objects, false);
    var r := Run(st, objects, false, destroyBucket);
    var picked := SelectedKeys(st.live, objects);
    var erased := SelectedVersions(s1.versions, objects);
    var tail := if destroyBucket && s1.live == [] then [DeleteBucketRequest] else [];
    var issued := ObjectRequests(picked) + VersionRequests(erased) + tail;
    RunRequests(st, objects, destroyBucket);
    assert r.requests == st.requests + issued;
    SelectedKeysMembers(st.live, objects, key);
    ObjectRequestsAvoid(picked, key);
    forall v | v in erased
      ensures v.key != key
    {
      SelectedVersionsMembers(s1.versions, objects, v);
    }
    VersionRequestsAvoid(erased, key);
    forall j | |st.requests| <= j < |r.requests|
      ensures !Mentions(r.requests[j], key)
    {
      assert r.requests[j] in issued;
    }
  }

  /** With no objects file (or an empty one) a live run that destroys the bucket
      leaves nothing: no live object, no version record, no bucket. */
  lemma AllKeysRunEmptiesBucket(st: BucketState, objects: Option<seq<string>>)
    requires st.present && (objects == None || objects == Some([]))
    ensures var r := Run(st, objects, false, true);
      r.live == [] && r.versions == [] && !r.present
  {
    var s1 := ObjectsPhase(st, objects, false);
    var s2 := VersionsPhase(s1, objects, false);
    if s1.live != [] {
      UnselectedKeysMembers(st.live, objects, s1.live[0]);
    }
    if s2.versions != [] {
      UnselectedVersionsMembers(s1.versions, objects, s2.versions[0]);
    }
  }

  /** The bucket phase of a live run deletes the bucket exactly when every live key
      was selected, whatever version records remain. */
  lemma BucketDeletedIffAllLiveSelected(st: BucketState, objects: Option<seq<string>>)
    requires st.present
    ensures !Run(st, objects, false, true).present <==> forall k | k in st.live :: Selects(objects, k)
  {
    var s1 := ObjectsPhase(st, objects, false);
    if s1.live != [] {
      UnselectedKeysMembers(st.live, objects, s1.live[0]);
    } else {
      forall k | k in st.live
        ensures Selects(objects, k)
      {
        UnselectedKeysMembers(st.live, objects, k);
      }
    }
  }

  /** The object phase changes nothing when no live key is selected. */
  lemma ObjectsPhaseIdle(st: BucketState, objects: Option<seq<string>>)
    requires forall k | k in st.live :: !Selects(objects, k)
    ensures ObjectsPhase(st, objects, false) == st
  {
    forall i | 0 <= i < |st.live|
      ensures !Selects(objects, st.live[i])
    {
      assert st.live[i] in st.live;
    }
    NothingSelected(st.live, objects);
    assert st.versions + Markers([], st.markersIssued) == st.versions;
    assert st.requests + ObjectRequests([]) == st.requests;
  }

  /** The version phase changes nothing when no record is selected. */
  lemma VersionsPhaseIdle(st: BucketState, objects: Option<seq<string>>)
    requires forall v | v in st.versions :: !Selects(objects, v.key)
    ensures VersionsPhase(st, objects, false) == st
  {
    forall i | 0 <= i < |st.versions|
      ensures !Selects(objects, st.versions[i].key)
    {
      assert st.versions[i] in st.versions;
    }
    NoVersionSelected(st.versions, objects);
    assert st.requests + VersionRequests([]) == st.requests;
  }

  /** Running the same live cleanup twice is the same as running it once: the second
      run finds nothing selected and issues no request. */
  lemma RunIsIdempotent(st: BucketState, objects: Option<seq<string>>, destroyBucket: bool)
    ensures var once := Run(st, objects, false, destroyBucket);
      Run(once, objects, false, destroyBucket) == once
  {
    if st.present {
      var s1 := ObjectsPhase(st, objects, false);
      var s2 := VersionsPhase(s1, objects, false);
      var once := Run(st, objects, false, destroyBucket);
      if once.present {
        assert once == s2;
        forall k | k in s2.live
          ensures !Selects(objects, k)
        {
          UnselectedKeysMembers(st.live, objects, k);
        }
        forall v | v in s2.versions
          ensures !Selects(objects, v.key)
        {
          UnselectedVersionsMembers(s1.versions, objects, v);
        }
        ObjectsPhaseIdle(s2, objects);
        VersionsPhaseIdle(s2, objects);
      }
    }
  }
}
