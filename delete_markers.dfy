/**
 * The delete-marker cleanup script (`remove_delete_markers`): list the latest delete
 * markers under each prefix, drop the "directory" keys (those ending in `/`), and
 * remove the markers that are left, unless this is a dry run.
 *
 * The `aws s3api list-object-versions` call is the parameter `listFor`: the delete
 * markers it reports for one prefix text, as (key, versionId) pairs. The
 * `aws s3api delete-object` call of the intended removal is the parameter `run`.
 */
module DeleteMarkers {
  import opened Wrappers
  import opened Strings

  /** One entry of the listing: a key and the version id of its latest delete marker. */
  datatype MarkerRecord = MarkerRecord(key: string, versionId: string)

  /** The `--prefix` value as the script receives it: a list of prefix strings, or
      any other value, represented by the text it renders to in an f-string (click
      hands over a tuple, which is not a list). */
  datatype PrefixArg = PrefixList(items: seq<string>) | NotAList(rendered: string)

  /** A line printed by the removal loop. */
  datatype Notice = Notice(dryrun: bool, bucket: string, key: string, versionId: string)

  /** The error the as-written removal loop raises. */
  datatype ScriptError = NameError(name: string)

  /** One `aws s3api delete-object` invocation. */
  datatype DeleteCommand = DeleteCommand(bucket: string, key: string, versionId: string)

  // ---------------------------------------------------------------------------
  // Prefix normalisation
  // ---------------------------------------------------------------------------

  /** `prefix if type(prefix) == list else [prefix]`. */
  function Prefixes(prefix: PrefixArg): (r: seq<string>)
    ensures prefix.NotAList? ==> r == [prefix.rendered]
    ensures prefix.PrefixList? ==> r == prefix.items
  {
    match prefix
    case PrefixList(items) => items
    case NotAList(rendered) => [rendered]
  }

  // ---------------------------------------------------------------------------
  // The `true` -> `True` rewrite
  // ---------------------------------------------------------------------------

  /** `s.replace('true', 'True')`: every occurrence, scanning left to right. */
  function ReplaceTrue(s: string): (r: string)
    ensures |r| == |s|
  {
    if |s| < 4 then s
    else if s[..4] == "true" then "True" + ReplaceTrue(s[4..])
    else [s[0]] + ReplaceTrue(s[1..])
  }

  /** The rewrite changes characters only by turning a `t` into a `T`. */
  lemma {:induction false} ReplaceTrueChars(s: string)
    ensures forall i :: 0 <= i < |s| ==>
      ReplaceTrue(s)[i] == s[i] || (s[i] == 't' && ReplaceTrue(s)[i] == 'T')
  {
    if |s| >= 4 {
      if s[..4] == "true" {
        ReplaceTrueChars(s[4..]);
        assert forall i :: 4 <= i < |s| ==> ReplaceTrue(s)[i] == ReplaceTrue(s[4..])[i - 4];
      } else {
        ReplaceTrueChars(s[1..]);
        assert forall i :: 1 <= i < |s| ==> ReplaceTrue(s)[i] == ReplaceTrue(s[1..])[i - 1];
      }
    }
  }

  /** An occurrence past a prefix is an occurrence in what follows the prefix. */
  lemma OccursPastPrefix(p: string, rest: string, needle: string, i: nat)
    requires |p| <= i
    ensures OccursAt(p + rest, needle, i) <==> OccursAt(rest, needle, i - |p|)
  {
    if i + |needle| <= |p + rest| {
      assert (p + rest)[i..i + |needle|] == rest[i - |p|..i - |p| + |needle|];
    }
  }

  /** The case where the text starts with `true`: it becomes `True`, and no
      occurrence can start inside `True`, which holds no `t`. */
  lemma NoTrueAfterTrue(rest: string)
    requires !Contains(rest, "true")
    ensures !Contains("True" + rest, "true")
  {
    var r := "True" + rest;
    forall i: nat
      ensures !OccursAt(r, "true", i)
    {
      if 4 <= i {
        OccursPastPrefix("True", rest, "true", i);
        assert !OccursAt(rest, "true", i - 4);
      } else if i + 4 <= |r| {
        assert r[i..i + 4][0] == r[i] == "True"[i];
        assert "True"[i] != 't' by {
          if i == 0 {} else if i == 1 {} else if i == 2 {} else {}
        }
      }
    }
  }

  /** The case where the text does not start with `true`: its first character is
      kept and the rest rewritten, each character of which is either kept or a `T`. */
  lemma NoTrueAfterOther(s: string, rest: string)
    requires |s| >= 4 && s[..4] != "true" && |rest| == |s| - 1
    requires forall k :: 0 <= k < |rest| ==> rest[k] == s[k + 1] || rest[k] == 'T'
    requires !Contains(rest, "true")
    ensures !Contains([s[0]] + rest, "true")
  {
    var r := [s[0]] + rest;
    forall i: nat
      ensures !OccursAt(r, "true", i)
    {
      if 1 <= i {
        OccursPastPrefix([s[0]], rest, "true", i);
        assert !OccursAt(rest, "true", i - 1);
      } else if i + 4 <= |r| {
        var k :| 0 <= k < 4 && s[..4][k] != "true"[k];
        assert r[..4][k] == r[k];
        if k == 0 {
          assert r[k] == s[0];
        } else {
          assert r[k] == rest[k - 1];
          assert "true"[k] != 'T' by {
            if k == 1 {} else if k == 2 {} else {}
          }
        }
        assert r[i..i + 4][k] != "true"[k];
      }
    }
  }

  /** After the rewrite no `true` is left anywhere in the text. */
  lemma {:induction false} ReplaceTrueLeavesNoTrue(s: string)
    ensures !Contains(ReplaceTrue(s), "true")
  {
    if |s| < 4 {
      assert forall i: nat :: !OccursAt(ReplaceTrue(s), "true", i);
    } else if s[..4] == "true" {
      ReplaceTrueLeavesNoTrue(s[4..]);
      NoTrueAfterTrue(ReplaceTrue(s[4..]));
    } else {
      var rest := ReplaceTrue(s[1..]);
      ReplaceTrueLeavesNoTrue(s[1..]);
      ReplaceTrueChars(s[1..]);
      NoTrueAfterOther(s, rest);
    }
  }

  /** A listed record as it comes out of the rewritten CLI output: the rewrite
      reaches the key and the version id as well. */
  function Rewritten(m: MarkerRecord): MarkerRecord
  {
    MarkerRecord(ReplaceTrue(m.key), ReplaceTrue(m.versionId))
  }

  // ---------------------------------------------------------------------------
  // `find_objects_with_delete_markers`
  // ---------------------------------------------------------------------------

  /** A key that names a "directory" placeholder rather than a file. */
  predicate IsDirectoryKey(key: string)
  {
    EndsWith(key, "/")
  }

  /** The records of one listing that the scan keeps, as it sees them. */
  function Kept(listing: seq<MarkerRecord>): seq<MarkerRecord>
  {
    if listing == [] then []
    else
      var m := Rewritten(listing[|listing| - 1]);
      Kept(listing[..|listing| - 1]) + (if IsDirectoryKey(m.key) then [] else [m])
  }

  /** The scan over all prefixes, in prefix order. */
  function Found(prefixes: seq<string>, listFor: string -> seq<MarkerRecord>): seq<MarkerRecord>
  {
    if prefixes == [] then []
    else Found(prefixes[..|prefixes| - 1], listFor) + Kept(listFor(prefixes[|prefixes| - 1]))
  }

  lemma FoundStep(prefixes: seq<string>, i: nat, listFor: string -> seq<MarkerRecord>)
    requires i < |prefixes|
    ensures Found(prefixes[..i + 1], listFor) == Found(prefixes[..i], listFor) + Kept(listFor(prefixes[i]))
  {
    assert prefixes[..i + 1][..i] == prefixes[..i];
  }

  lemma KeptStep(listing: seq<MarkerRecord>, j: nat)
    requires j < |listing|
    ensures var m := Rewritten(listing[j]);
      Kept(listing[..j + 1]) == Kept(listing[..j]) + (if IsDirectoryKey(m.key) then [] else [m])
  {
    assert listing[..j + 1][..j] == listing[..j];
  }

  /** The inner loop of `find_objects_with_delete_markers`, over one prefix's
      rewritten listing. */
  method KeepRecords(objects: seq<MarkerRecord>) returns (kept: seq<MarkerRecord>)
    ensures kept == Kept(objects)
  {
    kept := [];
    var j := 0;
    while j < |objects|
      invariant 0 <= j <= |objects|
      invariant kept == Kept(objects[..j])
    {
      var m := Rewritten(objects[j]);
      KeptStep(objects, j);
      if !IsDirectoryKey(m.key) {
        kept := kept + [m];
      }
      j := j + 1;
    }
    assert objects[..j] == objects;
  }

  /** `find_objects_with_delete_markers`: one listing per prefix, in order; from each,
      the rewritten records whose key does not end in `/`, in listing order. */
  method FindObjectsWithDeleteMarkers(prefix: PrefixArg, listFor: string -> seq<MarkerRecord>)
    returns (found: seq<MarkerRecord>)
    ensures found == Found(Prefixes(prefix), listFor)
  {
    var prefixes := Prefixes(prefix);
    found := [];
    var i := 0;
    while i < |prefixes|
      invariant 0 <= i <= |prefixes|
      invariant found == Found(prefixes[..i], listFor)
    {
      var kept := KeepRecords(listFor(prefixes[i]));
      FoundStep(prefixes, i, listFor);
      found := found + kept;
      i := i + 1;
    }
    assert prefixes[..i] == prefixes;
  }

  /** Everything the scan keeps is a rewritten listed record with a file key. */
  lemma {:induction false} KeptMembers(listing: seq<MarkerRecord>, m: MarkerRecord)
    ensures m in Kept(listing) <==> exists r :: r in listing && m == Rewritten(r) && !IsDirectoryKey(m.key)
  {
    if listing != [] {
      var init, last := listing[..|listing| - 1], listing[|listing| - 1];
      KeptMembers(init, m);
      assert listing == init + [last];
      if m == Rewritten(last) && !IsDirectoryKey(m.key) {
        assert last in listing;
      }
      if r :| r in listing && m == Rewritten(r) && !IsDirectoryKey(m.key) {
        if r != last {
          assert r in init;
        }
      }
    }
  }

  /** Kept records keep listing order across a split of the listing. */
  lemma {:induction false} KeptAppend(a: seq<MarkerRecord>, b: seq<MarkerRecord>)
    ensures Kept(a + b) == Kept(a) + Kept(b)
  {
    if b == [] {
      assert a + b == a;
    } else {
      assert (a + b)[..|a + b| - 1] == a + b[..|b| - 1];
      KeptAppend(a, b[..|b| - 1]);
    }
  }

  /** The scan's result is the concatenation, in prefix order, of what each prefix yields. */
  lemma {:induction false} FoundAppend(p: seq<string>, q: seq<string>, listFor: string -> seq<MarkerRecord>)
    ensures Found(p + q, listFor) == Found(p, listFor) + Found(q, listFor)
  {
    if q == [] {
      assert p + q == p;
    } else {
      assert (p + q)[..|p + q| - 1] == p + q[..|q| - 1];
      FoundAppend(p, q[..|q| - 1], listFor);
    }
  }

  /** A prefix given as a single string, or as any value that is not a list, is
      listed exactly once. */
  lemma SinglePrefixListedOnce(rendered: string, listFor: string -> seq<MarkerRecord>)
    ensures Found(Prefixes(NotAList(rendered)), listFor) == Kept(listFor(rendered))
  {
    assert [rendered][..0] == [];
  }

  // ---------------------------------------------------------------------------
  // `remove_delete_markers`, as written
  // ---------------------------------------------------------------------------

  function Notices(bucket: string, markers: seq<MarkerRecord>, dryrun: bool): (r: seq<Notice>)
    ensures |r| == |markers|
  {
    seq(|markers|, i requires 0 <= i < |markers| => Notice(dryrun, bucket, markers[i].key, markers[i].versionId))
  }

  lemma NoticesSnoc(bucket: string, markers: seq<MarkerRecord>, i: nat, dryrun: bool)
    requires i < |markers|
    ensures Notices(bucket, markers[..i + 1], dryrun) ==
      Notices(bucket, markers[..i], dryrun) + [Notice(dryrun, bucket, markers[i].key, markers[i].versionId)]
  {
  }

  /** How many markers the as-written loop reaches: all of them in a dry run, at most
      the first one otherwise. */
  function Reached(markers: seq<MarkerRecord>, dryrun: bool): (n: nat)
    ensures n <= |markers|
  {
    if dryrun || markers == [] then |markers| else 1
  }

  /** What the as-written removal returns. */
  function RemovalOutcome(markers: seq<MarkerRecord>, dryrun: bool): Result<seq<string>, ScriptError>
  {
    if !dryrun && markers != [] then Failure(NameError("cmd_str")) else Success([])
  }

  /** `remove_delete_markers` as written. The command of a live run is built into a
      variable `cmd` while the next statement splits `cmd_str`, which is not bound
      in this function: the first marker of a live run raises `NameError` and no
      delete is ever issued. */
  method RemoveDeleteMarkers(bucket: string, prefix: PrefixArg, quiet: bool, noDryrun: bool,
                             listFor: string -> seq<MarkerRecord>)
    returns (outcome: Result<seq<string>, ScriptError>, lines: seq<Notice>)
    ensures var markers := Found(Prefixes(prefix), listFor);
      outcome == RemovalOutcome(markers, !noDryrun)
    ensures var markers := Found(Prefixes(prefix), listFor);
      lines == if quiet then [] else Notices(bucket, markers[..Reached(markers, !noDryrun)], !noDryrun)
  {
    var verbose := !quiet;
    var dryrun := !noDryrun;
    var prefixes := Prefixes(prefix);
    var markers := FindObjectsWithDeleteMarkers(PrefixList(prefixes), listFor);
    lines := [];
    var i := 0;
    while i < |markers|
      invariant 0 <= i <= |markers|
      invariant dryrun || i == 0
      invariant lines == if verbose then Notices(bucket, markers[..i], dryrun) else []
    {
      var m := markers[i];
      if verbose {
        lines := lines + [Notice(dryrun, bucket, m.key, m.versionId)];
      }
      NoticesSnoc(bucket, markers, i, dryrun);
      if !dryrun {
        return Failure(NameError("cmd_str")), lines;
      }
      i := i + 1;
    }
    assert markers[..i] == markers;
    return Success([]), lines;
  }

  /** A live run over at least one marker fails and removes nothing, while a dry run
      succeeds with an empty output list whatever it finds. */
  lemma LiveRemovalFails(markers: seq<MarkerRecord>)
    ensures markers != [] ==> RemovalOutcome(markers, false) == Failure(NameError("cmd_str"))
    ensures RemovalOutcome(markers, true) == Success([])
  {
  }

  lemma UntrueRewritten()
    ensures ReplaceTrue("untrue") == "unTrue"
  {
    assert "true"[..4] == "true" && "true"[4..] == "";
    assert ReplaceTrue("true") == "True" + ReplaceTrue("") == "True";
    assert "ntrue"[..4][0] != "true"[0] && "ntrue"[1..] == "true";
    assert ReplaceTrue("ntrue") == "n" + ReplaceTrue("true") == "nTrue";
    assert "untrue"[..4][0] != "true"[0] && "untrue"[1..] == "ntrue";
    assert ReplaceTrue("untrue") == "u" + ReplaceTrue("ntrue");
  }

  /** The listing rewrite changes keys: a marker on `untrue` is reported as one on
      `unTrue`, and the listed record itself is not found. */
  lemma RewriteCorruptsKeys()
    ensures var listed := MarkerRecord("untrue", "v1");
      var found := Found([""], (p: string) => [listed]);
      found == [MarkerRecord("unTrue", "v1")] && listed !in found
  {
    var listed := MarkerRecord("untrue", "v1");
    UntrueRewritten();
    assert Kept([listed]) == [MarkerRecord("unTrue", "v1")] by {
      assert [listed][..0] == [];
      assert !IsDirectoryKey("unTrue");
    }
    assert [""][..0] == [];
    assert "untrue"[1] != "unTrue"[1] || "untrue"[2] != "unTrue"[2];
  }

  // ---------------------------------------------------------------------------
  // `remove_delete_markers`, as intended
  // ---------------------------------------------------------------------------

  /** The records of one listing the intended scan keeps: those with a file key,
      exactly as listed. */
  function KeptIntended(listing: seq<MarkerRecord>): seq<MarkerRecord>
  {
    if listing == [] then []
    else
      var m := listing[|listing| - 1];
      KeptIntended(listing[..|listing| - 1]) + (if IsDirectoryKey(m.key) then [] else [m])
  }

  function FoundIntended(prefixes: seq<string>, listFor: string -> seq<MarkerRecord>): seq<MarkerRecord>
  {
    if prefixes == [] then []
    else FoundIntended(prefixes[..|prefixes| - 1], listFor) + KeptIntended(listFor(prefixes[|prefixes| - 1]))
  }

  /** Every listed record, over all prefixes in order. */
  function Listed(prefixes: seq<string>, listFor: string -> seq<MarkerRecord>): seq<MarkerRecord>
  {
    if prefixes == [] then []
    else Listed(prefixes[..|prefixes| - 1], listFor) + listFor(prefixes[|prefixes| - 1])
  }

  lemma {:induction false} KeptIntendedMembers(listing: seq<MarkerRecord>, m: MarkerRecord)
    ensures m in KeptIntended(listing) <==> m in listing && !IsDirectoryKey(m.key)
  {
    if listing != [] {
      KeptIntendedMembers(listing[..|listing| - 1], m);
      assert listing == listing[..|listing| - 1] + [listing[|listing| - 1]];
    }
  }

  /** The intended scan finds exactly the listed records with a file key, verbatim. */
  lemma {:induction false} FoundIntendedMembers(prefixes: seq<string>, listFor: string -> seq<MarkerRecord>, m: MarkerRecord)
    ensures m in FoundIntended(prefixes, listFor) <==> m in Listed(prefixes, listFor) && !IsDirectoryKey(m.key)
  {
    if prefixes != [] {
      FoundIntendedMembers(prefixes[..|prefixes| - 1], listFor, m);
      KeptIntendedMembers(listFor(prefixes[|prefixes| - 1]), m);
    }
  }

  lemma FoundIntendedStep(prefixes: seq<string>, i: nat, listFor: string -> seq<MarkerRecord>)
    requires i < |prefixes|
    ensures FoundIntended(prefixes[..i + 1], listFor) == FoundIntended(prefixes[..i], listFor) + KeptIntended(listFor(prefixes[i]))
  {
    assert prefixes[..i + 1][..i] == prefixes[..i];
  }

  lemma KeptIntendedStep(listing: seq<MarkerRecord>, j: nat)
    requires j < |listing|
    ensures KeptIntended(listing[..j + 1]) ==
      KeptIntended(listing[..j]) + (if IsDirectoryKey(listing[j].key) then [] else [listing[j]])
  {
    assert listing[..j + 1][..j] == listing[..j];
  }

  /** The scan without the textual rewrite: the listing is taken as parsed records. */
  method FindObjectsWithDeleteMarkersIntended(prefix: PrefixArg, listFor: string -> seq<MarkerRecord>)
    returns (found: seq<MarkerRecord>)
    ensures found == FoundIntended(Prefixes(prefix), listFor)
  {
    var prefixes := Prefixes(prefix);
    found := [];
    var i := 0;
    while i < |prefixes|
      invariant 0 <= i <= |prefixes|
      invariant found == FoundIntended(prefixes[..i], listFor)
    {
      var kept := KeepRecordsIntended(listFor(prefixes[i]));
      FoundIntendedStep(prefixes, i, listFor);
      found := found + kept;
      i := i + 1;
    }
    assert prefixes[..i] == prefixes;
  }

  /** The inner loop of the scan without the rewrite, over one listing. */
  method KeepRecordsIntended(objects: seq<MarkerRecord>) returns (kept: seq<MarkerRecord>)
    ensures kept == KeptIntended(objects)
  {
    kept := [];
    var j := 0;
    while j < |objects|
      invariant 0 <= j <= |objects|
      invariant kept == KeptIntended(objects[..j])
    {
      KeptIntendedStep(objects, j);
      if !IsDirectoryKey(objects[j].key) {
        kept := kept + [objects[j]];
      }
      j := j + 1;
    }
    assert objects[..j] == objects;
  }

  function Commands(bucket: string, markers: seq<MarkerRecord>): (r: seq<DeleteCommand>)
    ensures |r| == |markers|
  {
    seq(|markers|, i requires 0 <= i < |markers| => DeleteCommand(bucket, markers[i].key, markers[i].versionId))
  }

  lemma CommandsSnoc(bucket: string, markers: seq<MarkerRecord>, i: nat)
    requires i < |markers|
    ensures Commands(bucket, markers[..i + 1]) ==
      Commands(bucket, markers[..i]) + [DeleteCommand(bucket, markers[i].key, markers[i].versionId)]
  {
  }

  /** Each command of an intended live run removes a listed marker of a file key,
      with the key and version id exactly as listed. */
  lemma IntendedCommandsTargetListedMarkers(bucket: string, prefixes: seq<string>,
                                            listFor: string -> seq<MarkerRecord>, c: DeleteCommand)
    requires c in Commands(bucket, FoundIntended(prefixes, listFor))
    ensures c.bucket == bucket
    ensures MarkerRecord(c.key, c.versionId) in Listed(prefixes, listFor)
    ensures !IsDirectoryKey(c.key)
  {
    var found := FoundIntended(prefixes, listFor);
    var i :| 0 <= i < |found| && Commands(bucket, found)[i] == c;
    assert MarkerRecord(c.key, c.versionId) == found[i];
    FoundIntendedMembers(prefixes, listFor, found[i]);
  }

  /** `remove_delete_markers` with the delete command actually run: in a live run one
      `delete-object` per found marker, in order, and its output collected. */
  method RemoveDeleteMarkersIntended(bucket: string, prefix: PrefixArg, quiet: bool, noDryrun: bool,
                                     listFor: string -> seq<MarkerRecord>, run: DeleteCommand -> string)
    returns (outputs: seq<string>, issued: seq<DeleteCommand>, lines: seq<Notice>)
    ensures var markers := FoundIntended(Prefixes(prefix), listFor);
      issued == if noDryrun then Commands(bucket, markers) else []
    ensures |outputs| == |issued| && forall i :: 0 <= i < |issued| ==> outputs[i] == run(issued[i])
    ensures var markers := FoundIntended(Prefixes(prefix), listFor);
      lines == if quiet then [] else Notices(bucket, markers, !noDryrun)
  {
    var verbose := !quiet;
    var dryrun := !noDryrun;
    var markers := FindObjectsWithDeleteMarkersIntended(PrefixList(Prefixes(prefix)), listFor);
    outputs, issued, lines := [], [], [];
    var i := 0;
    while i < |markers|
      invariant i <= |markers|
      invariant MarkersRemoved(bucket, markers, i, dryrun, verbose, run, outputs, issued, lines)
    {
      outputs, issued, lines := RemoveMarker(bucket, markers, i, dryrun, verbose, run, outputs, issued, lines);
      i := i + 1;
    }
    assert markers[..i] == markers;
  }

  /** The commands issued, their outputs and the printed lines once the intended
      removal loop has handled the first `i` markers. */
  predicate MarkersRemoved(bucket: string, markers: seq<MarkerRecord>, i: nat, dryrun: bool, verbose: bool,
                           run: DeleteCommand -> string,
                           outputs: seq<string>, issued: seq<DeleteCommand>, lines: seq<Notice>)
  {
    && i <= |markers|
    && issued == (if dryrun then [] else Commands(bucket, markers[..i]))
    && |outputs| == |issued| && (forall k :: 0 <= k < |issued| ==> outputs[k] == run(issued[k]))
    && lines == if verbose then Notices(bucket, markers[..i], dryrun) else []
  }

  /** One marker of the intended removal loop: reported, and deleted in a live run. */
  method RemoveMarker(bucket: string, markers: seq<MarkerRecord>, i: nat, dryrun: bool, verbose: bool,
                      run: DeleteCommand -> string,
                      outputs: seq<string>, issued: seq<DeleteCommand>, lines: seq<Notice>)
    returns (outputs': seq<string>, issued': seq<DeleteCommand>, lines': seq<Notice>)
    requires i < |markers| && MarkersRemoved(bucket, markers, i, dryrun, verbose, run, outputs, issued, lines)
    ensures MarkersRemoved(bucket, markers, i + 1, dryrun, verbose, run, outputs', issued', lines')
  {
    var m := markers[i];
    outputs', issued', lines' := outputs, issued, lines;
    if verbose {
      lines' := lines + [Notice(dryrun, bucket, m.key, m.versionId)];
    }
    NoticesSnoc(bucket, markers, i, dryrun);
    CommandsSnoc(bucket, markers, i);
    if !dryrun {
      var cmd := DeleteCommand(bucket, m.key, m.versionId);
      issued' := issued + [cmd];
      outputs' := outputs + [run(cmd)];
    }
  }
}
