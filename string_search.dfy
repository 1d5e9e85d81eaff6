/**
 * The text search script (`get_filepaths_containing_string`): walk a directory,
 * keep the files whose path ends with one of the given extensions, and map each
 * search string to the files with a line containing it.
 *
 * The directory walk and the reading of each file are the input `files`: the
 * walked paths in walk order, each with its lines as `readlines` yields them.
 */
module StringSearch {
  import opened Seqs
  import opened Strings

  /** A `--string` or `--ext` argument: one string, or an iterable of strings. */
  datatype StrArg = OneString(s: string) | Several(items: seq<string>)

  /** One walked file: its joined path and its lines. */
  datatype WalkedFile = WalkedFile(path: string, lines: seq<string>)

  /** A single string is squeezed into a one-element tuple; anything else is iterated as given. */
  function Squeeze(a: StrArg): (r: seq<string>)
    ensures a.OneString? ==> r == [a.s]
    ensures a.Several? ==> r == a.items
  {
    match a
    case OneString(s) => [s]
    case Several(items) => items
  }

  /** `any(filepath.endswith(x) for x in ext)`. */
  predicate HasExtension(path: string, exts: seq<string>)
  {
    exists x | x in exts :: EndsWith(path, x)
  }

  /** The per-line test: a raw substring test when case-sensitive, otherwise the
      substring test on both sides lowered. */
  predicate LineMatches(s: string, line: string, caseSensitive: bool)
  {
    if caseSensitive then Contains(line, s) else Contains(Lower(line), Lower(s))
  }

  /** A case-sensitive match is also a case-insensitive one. */
  lemma CaseSensitiveImpliesInsensitive(s: string, line: string)
    requires LineMatches(s, line, true)
    ensures LineMatches(s, line, false)
  {
    var i: nat :| OccursAt(line, s, i);
    assert OccursAt(Lower(line), Lower(s), i) by {
      forall k | 0 <= k < |s|
        ensures Lower(line)[i + k] == Lower(s)[k]
      {
        assert line[i + k] == line[i..i + |s|][k];
      }
    }
  }

  /** Some line of `lines` matches `s`. */
  predicate AnyLineMatches(lines: seq<string>, s: string, caseSensitive: bool)
  {
    exists j :: 0 <= j < |lines| && LineMatches(s, lines[j], caseSensitive)
  }

  // ---------------------------------------------------------------------------
  // As written: the guard tests the dictionary's keys
  // ---------------------------------------------------------------------------

  /** How many times one file's path is appended to the list of `s`, over its
      first lines: once per matching line and per occurrence of `s` among the
      search strings. */
  function LineHits(strings: seq<string>, lines: seq<string>, s: string, caseSensitive: bool): nat
  {
    if lines == [] then 0
    else
      LineHits(strings, lines[..|lines| - 1], s, caseSensitive)
      + (if LineMatches(s, lines[|lines| - 1], caseSensitive) then Count(strings, s) else 0)
  }

  /** What one walked file adds to the list of `s`. The guard
      `filepath not in map_string_to_filepaths` looks at the dictionary's keys, the
      search strings, so it only ever blocks a path that equals a search string. */
  function FileHits(strings: seq<string>, exts: seq<string>, f: WalkedFile, s: string, caseSensitive: bool): seq<string>
  {
    if HasExtension(f.path, exts) && f.path !in strings then Repeat(f.path, LineHits(strings, f.lines, s, caseSensitive))
    else []
  }

  /** The list of `s` after the walk has visited `files`. */
  function Hits(strings: seq<string>, exts: seq<string>, files: seq<WalkedFile>, s: string, caseSensitive: bool): seq<string>
  {
    if files == [] then []
    else Hits(strings, exts, files[..|files| - 1], s, caseSensitive) + FileHits(strings, exts, files[|files| - 1], s, caseSensitive)
  }

  lemma HitsStep(strings: seq<string>, exts: seq<string>, files: seq<WalkedFile>, i: nat, s: string, caseSensitive: bool)
    requires i < |files|
    ensures Hits(strings, exts, files[..i + 1], s, caseSensitive) ==
      Hits(strings, exts, files[..i], s, caseSensitive) + FileHits(strings, exts, files[i], s, caseSensitive)
  {
    assert files[..i + 1][..i] == files[..i];
  }

  lemma LineHitsStep(strings: seq<string>, lines: seq<string>, j: nat, s: string, caseSensitive: bool)
    requires j < |lines|
    ensures LineHits(strings, lines[..j + 1], s, caseSensitive) ==
      LineHits(strings, lines[..j], s, caseSensitive) + (if LineMatches(s, lines[j], caseSensitive) then Count(strings, s) else 0)
  {
    assert lines[..j + 1][..j] == lines[..j];
  }

  /** One search string of the per-line loop, on the list of `t`: the path is
      appended when the string at hand is `t`, the line matches and the path is
      not blocked. */
  lemma MatchStep(prior: seq<string>, mid: seq<string>, after: seq<string>, strings: seq<string>, k: nat,
                  t: string, path: string, blocked: bool, matches: bool)
    requires k < |strings|
    requires mid == prior + Repeat(path, if blocked || !matches then 0 else Count(strings[..k], t))
    requires after == if !blocked && matches && t == strings[k] then mid + [path] else mid
    ensures after == prior + Repeat(path, if blocked || !matches then 0 else Count(strings[..k + 1], t))
  {
    CountStep(strings, k, t);
    if !blocked && matches && t == strings[k] {
      var c := Count(strings[..k], t);
      assert (prior + Repeat(path, c)) + [path] == prior + (Repeat(path, c) + [path]);
    }
  }

  /** The `for s in string` loop over one line, as written: every occurrence of a
      matching search string appends the path, unless the path is a key. */
  method AppendMatches(m: map<string, seq<string>>, strings: seq<string>, path: string, line: string, caseSensitive: bool)
    returns (m': map<string, seq<string>>)
    requires m.Keys == set s | s in strings
    ensures m'.Keys == m.Keys
    ensures forall s | s in m ::
      m'[s] == m[s] + Repeat(path, if path in strings || !LineMatches(s, line, caseSensitive) then 0 else Count(strings, s))
  {
    m' := m;
    var k := 0;
    while k < |strings|
      invariant k <= |strings|
      invariant MatchesAppended(m, m', strings, k, path, line, caseSensitive)
    {
      m' := AppendMatch(m, m', strings, k, path, line, caseSensitive);
      k := k + 1;
    }
    assert strings[..k] == strings;
  }

  /** The map once the per-line loop as written has tried the first `k` search strings. */
  predicate MatchesAppended(m: map<string, seq<string>>, m': map<string, seq<string>>, strings: seq<string>, k: nat,
                            path: string, line: string, caseSensitive: bool)
  {
    && k <= |strings|
    && m.Keys == (set s | s in strings)
    && m'.Keys == m.Keys
    && forall t | t in m ::
        m'[t] == m[t] + Repeat(path, if path in strings || !LineMatches(t, line, caseSensitive) then 0 else Count(strings[..k], t))
  }

  /** One search string of the per-line loop, as written: the guard tests the map's keys. */
  method AppendMatch(m: map<string, seq<string>>, m': map<string, seq<string>>, strings: seq<string>, k: nat,
                     path: string, line: string, caseSensitive: bool)
    returns (m'': map<string, seq<string>>)
    requires k < |strings| && MatchesAppended(m, m', strings, k, path, line, caseSensitive)
    ensures MatchesAppended(m, m'', strings, k + 1, path, line, caseSensitive)
  {
    var s := strings[k];
    m'' := m';
    if LineMatches(s, line, caseSensitive) && path !in m' {
      m'' := m'[s := m'[s] + [path]];
    }
    forall t | t in m
      ensures m''[t] == m[t] + Repeat(path, if path in strings || !LineMatches(t, line, caseSensitive) then 0 else Count(strings[..k + 1], t))
    {
      MatchStep(m[t], m'[t], m''[t], strings, k, t, path, path in strings, LineMatches(t, line, caseSensitive));
    }
  }

  /** One line of the per-file loop, on the list of `s`. */
  lemma LineStep(prior: seq<string>, mid: seq<string>, after: seq<string>, strings: seq<string>,
                 lines: seq<string>, j: nat, s: string, path: string, caseSensitive: bool)
    requires j < |lines|
    requires mid == prior + Repeat(path, if path in strings then 0 else LineHits(strings, lines[..j], s, caseSensitive))
    requires after == mid + Repeat(path, if path in strings || !LineMatches(s, lines[j], caseSensitive) then 0 else Count(strings, s))
    ensures after == prior + Repeat(path, if path in strings then 0 else LineHits(strings, lines[..j + 1], s, caseSensitive))
  {
    LineHitsStep(strings, lines, j, s, caseSensitive);
    var a := if path in strings then 0 else LineHits(strings, lines[..j], s, caseSensitive);
    var b := if path in strings || !LineMatches(s, lines[j], caseSensitive) then 0 else Count(strings, s);
    RepeatAdd(path, a, b);
    assert (prior + Repeat(path, a)) + Repeat(path, b) == prior + (Repeat(path, a) + Repeat(path, b));
  }

  /** The `for line in lines` loop over one file with a wanted extension, as written. */
  method ScanFile(m: map<string, seq<string>>, strings: seq<string>, f: WalkedFile, caseSensitive: bool)
    returns (m': map<string, seq<string>>)
    requires m.Keys == set s | s in strings
    ensures m'.Keys == m.Keys
    ensures forall s | s in m ::
      m'[s] == m[s] + Repeat(f.path, if f.path in strings then 0 else LineHits(strings, f.lines, s, caseSensitive))
  {
    m' := m;
    var lines := f.lines;
    var j := 0;
    while j < |lines|
      invariant 0 <= j <= |lines|
      invariant m'.Keys == m.Keys
      invariant forall s | s in m ::
        m'[s] == m[s] + Repeat(f.path, if f.path in strings then 0 else LineHits(strings, lines[..j], s, caseSensitive))
    {
      ghost var before := m';
      m' := AppendMatches(m', strings, f.path, lines[j], caseSensitive);
      forall s | s in m
        ensures m'[s] == m[s] +
          Repeat(f.path, if f.path in strings then 0 else LineHits(strings, lines[..j + 1], s, caseSensitive))
      {
        LineStep(m[s], before[s], m'[s], strings, lines, j, s, f.path, caseSensitive);
      }
      j := j + 1;
    }
    assert lines[..j] == lines;
  }

  /** One walked file of the search, on the list of `s`. */
  lemma FileStep(prior: seq<string>, after: seq<string>, strings: seq<string>, exts: seq<string>,
                 files: seq<WalkedFile>, i: nat, s: string, caseSensitive: bool)
    requires i < |files|
    requires prior == Hits(strings, exts, files[..i], s, caseSensitive)
    requires after == if HasExtension(files[i].path, exts) then
        prior + Repeat(files[i].path, if files[i].path in strings then 0 else LineHits(strings, files[i].lines, s, caseSensitive))
      else prior
    ensures after == Hits(strings, exts, files[..i + 1], s, caseSensitive)
  {
    HitsStep(strings, exts, files, i, s, caseSensitive);
    assert prior + [] == prior;
    assert Repeat(files[i].path, 0) == [];
  }

  /** The search as written. The result has one key per distinct search string; the
      list of `s` holds every walked path with a wanted extension, once per line
      that matches `s` and per occurrence of `s` among the search strings, unless the
      path is itself a search string. */
  method GetFilepathsContainingString(str: StrArg, files: seq<WalkedFile>, ext: StrArg, caseSensitive: bool)
    returns (m: map<string, seq<string>>)
    ensures m.Keys == set s | s in Squeeze(str)
    ensures forall s | s in m :: m[s] == Hits(Squeeze(str), Squeeze(ext), files, s, caseSensitive)
  {
    var strings, exts := Squeeze(str), Squeeze(ext);
    m := map s | s in strings :: [];
    var i := 0;
    while i < |files|
      invariant i <= |files|
      invariant Walked(m, strings, exts, files, i, caseSensitive)
    {
      m := WalkFile(m, strings, exts, files, i, caseSensitive);
      i := i + 1;
    }
    assert files[..i] == files;
  }

  /** The map once the walk as written has visited the first `i` files. */
  predicate Walked(m: map<string, seq<string>>, strings: seq<string>, exts: seq<string>,
                   files: seq<WalkedFile>, i: nat, caseSensitive: bool)
  {
    && i <= |files|
    && m.Keys == (set s | s in strings)
    && forall s | s in m :: m[s] == Hits(strings, exts, files[..i], s, caseSensitive)
  }

  /** One walked file, as written: scanned when its extension is wanted. */
  method WalkFile(m: map<string, seq<string>>, strings: seq<string>, exts: seq<string>,
                  files: seq<WalkedFile>, i: nat, caseSensitive: bool)
    returns (m': map<string, seq<string>>)
    requires i < |files| && Walked(m, strings, exts, files, i, caseSensitive)
    ensures Walked(m', strings, exts, files, i + 1, caseSensitive)
  {
    var f := files[i];
    m' := m;
    if HasExtension(f.path, exts) {
      m' := ScanFile(m, strings, f, caseSensitive);
    }
    forall s | s in m'
      ensures m'[s] == Hits(strings, exts, files[..i + 1], s, caseSensitive)
    {
      FileStep(m[s], m'[s], strings, exts, files, i, s, caseSensitive);
    }
  }

  /** Lists only grow: walking more files appends to each list. */
  lemma {:induction false} HitsAppend(strings: seq<string>, exts: seq<string>, a: seq<WalkedFile>, b: seq<WalkedFile>,
                                      s: string, caseSensitive: bool)
    ensures Hits(strings, exts, a + b, s, caseSensitive) ==
      Hits(strings, exts, a, s, caseSensitive) + Hits(strings, exts, b, s, caseSensitive)
  {
    if b == [] {
      assert a + b == a;
    } else {
      var init, last := b[..|b| - 1], b[|b| - 1];
      var tail := FileHits(strings, exts, last, s, caseSensitive);
      assert (a + b)[..|a + b| - 1] == a + init && (a + b)[|a + b| - 1] == last;
      HitsAppend(strings, exts, a, init, s, caseSensitive);
      var x, y := Hits(strings, exts, a, s, caseSensitive), Hits(strings, exts, init, s, caseSensitive);
      assert Hits(strings, exts, a + b, s, caseSensitive) == (x + y) + tail;
      assert (x + y) + tail == x + (y + tail);
    }
  }

  /** A file contributes appends exactly when one of its lines matches and `s` is a
      search string. */
  lemma {:induction false} LineHitsPositive(strings: seq<string>, lines: seq<string>, s: string, caseSensitive: bool)
    ensures LineHits(strings, lines, s, caseSensitive) > 0 <==> s in strings && AnyLineMatches(lines, s, caseSensitive)
  {
    CountPositive(strings, s);
    if lines != [] {
      var init := lines[..|lines| - 1];
      LineHitsPositive(strings, init, s, caseSensitive);
      if AnyLineMatches(init, s, caseSensitive) {
        var j :| 0 <= j < |init| && LineMatches(s, init[j], caseSensitive);
        assert lines[j] == init[j];
      }
      if AnyLineMatches(lines, s, caseSensitive) {
        var j :| 0 <= j < |lines| && LineMatches(s, lines[j], caseSensitive);
        if j < |init| {
          assert init[j] == lines[j];
        }
      }
    }
  }

  /** Some walked file has path `p` and a line matching `s`. */
  predicate HasMatchingFile(files: seq<WalkedFile>, s: string, caseSensitive: bool, p: string)
  {
    exists i :: 0 <= i < |files| && files[i].path == p && AnyLineMatches(files[i].lines, s, caseSensitive)
  }

  lemma MatchingFileStep(files: seq<WalkedFile>, s: string, caseSensitive: bool, p: string)
    requires files != []
    ensures var init, f := files[..|files| - 1], files[|files| - 1];
      HasMatchingFile(files, s, caseSensitive, p) <==>
        HasMatchingFile(init, s, caseSensitive, p) || (f.path == p && AnyLineMatches(f.lines, s, caseSensitive))
  {
    var init := files[..|files| - 1];
    if HasMatchingFile(files, s, caseSensitive, p) {
      var i :| 0 <= i < |files| && files[i].path == p && AnyLineMatches(files[i].lines, s, caseSensitive);
      if i < |init| {
        assert init[i] == files[i];
      }
    }
    if HasMatchingFile(init, s, caseSensitive, p) {
      var i :| 0 <= i < |init| && init[i].path == p && AnyLineMatches(init[i].lines, s, caseSensitive);
      assert files[i] == init[i];
    }
  }

  /** A path is listed for `s` exactly when some walked file with that path has a
      wanted extension and a line matching `s`, `s` is a search string, and the path
      is not one. */
  lemma {:induction false} HitsMembers(strings: seq<string>, exts: seq<string>, files: seq<WalkedFile>,
                                       s: string, caseSensitive: bool, p: string)
    ensures p in Hits(strings, exts, files, s, caseSensitive) <==>
      && s in strings && p !in strings && HasExtension(p, exts)
      && HasMatchingFile(files, s, caseSensitive, p)
  {
    if files != [] {
      var init, f := files[..|files| - 1], files[|files| - 1];
      HitsMembers(strings, exts, init, s, caseSensitive, p);
      LineHitsPositive(strings, f.lines, s, caseSensitive);
      var n := LineHits(strings, f.lines, s, caseSensitive);
      RepeatMembers(f.path, n, p);
      assert p in FileHits(strings, exts, f, s, caseSensitive) <==>
        HasExtension(f.path, exts) && f.path !in strings && n > 0 && p == f.path;
      MatchingFileStep(files, s, caseSensitive, p);
    }
  }

  /** The guard does not deduplicate: with the default case-insensitive search, one
      file with two matching lines is listed twice. */
  lemma DuplicatePathCounterexample()
    ensures Hits(["word"], [".py"], [WalkedFile("a.py", ["word\n", "Word\n"])], "word", false) == ["a.py", "a.py"]
  {
    var lines := ["word\n", "Word\n"];
    assert Lower("word") == "word";
    assert LineMatches("word", lines[0], false) by {
      assert Lower(lines[0])[0..4] == "word";
      assert OccursAt(Lower(lines[0]), "word", 0);
    }
    assert LineMatches("word", lines[1], false) by {
      assert Lower(lines[1])[0..4] == "word";
      assert OccursAt(Lower(lines[1]), "word", 0);
    }
    assert EndsWith("a.py", ".py");
    assert "a.py" !in ["word"] by {
      assert "a.py"[0] != "word"[0];
    }
    assert Count(["word"], "word") == 1 by {
      assert ["word"][..0] == [];
    }
    assert LineHits(["word"], lines, "word", false) == 2 by {
      assert lines[..1] == [lines[0]];
      assert lines[..1][..0] == [];
    }
    assert [WalkedFile("a.py", lines)][..0] == [];
  }

  // ---------------------------------------------------------------------------
  // As intended: the guard tests the list of the string at hand
  // ---------------------------------------------------------------------------

  /** The intended list of `s` after the walk has visited `files`: each path with a
      wanted extension and a line matching `s`, once, in walk order. */
  function FirstHits(exts: seq<string>, files: seq<WalkedFile>, s: string, caseSensitive: bool): seq<string>
  {
    if files == [] then []
    else
      var prev, f := FirstHits(exts, files[..|files| - 1], s, caseSensitive), files[|files| - 1];
      prev + (if HasExtension(f.path, exts) && AnyLineMatches(f.lines, s, caseSensitive) && f.path !in prev then [f.path] else [])
  }

  lemma FirstHitsStep(exts: seq<string>, files: seq<WalkedFile>, i: nat, s: string, caseSensitive: bool)
    requires i < |files|
    ensures var prev, f := FirstHits(exts, files[..i], s, caseSensitive), files[i];
      FirstHits(exts, files[..i + 1], s, caseSensitive) ==
        prev + (if HasExtension(f.path, exts) && AnyLineMatches(f.lines, s, caseSensitive) && f.path !in prev then [f.path] else [])
  {
    assert files[..i + 1][..i] == files[..i];
  }

  /** The intended lists never repeat a path. */
  lemma {:induction false} FirstHitsNoDup(exts: seq<string>, files: seq<WalkedFile>, s: string, caseSensitive: bool)
    ensures NoDup(FirstHits(exts, files, s, caseSensitive))
  {
    if files != [] {
      var prev := FirstHits(exts, files[..|files| - 1], s, caseSensitive);
      FirstHitsNoDup(exts, files[..|files| - 1], s, caseSensitive);
      var f := files[|files| - 1];
      if HasExtension(f.path, exts) && AnyLineMatches(f.lines, s, caseSensitive) && f.path !in prev {
        NoDupSnoc(prev, f.path);
      } else {
        assert prev + [] == prev;
      }
    }
  }

  /** A path is in the intended list of `s` exactly when some walked file with that
      path has a wanted extension and a line matching `s`. */
  lemma {:induction false} FirstHitsMembers(exts: seq<string>, files: seq<WalkedFile>, s: string, caseSensitive: bool, p: string)
    ensures p in FirstHits(exts, files, s, caseSensitive) <==>
      HasExtension(p, exts) && HasMatchingFile(files, s, caseSensitive, p)
  {
    if files != [] {
      var init, f := files[..|files| - 1], files[|files| - 1];
      FirstHitsMembers(exts, init, s, caseSensitive, p);
      MatchingFileStep(files, s, caseSensitive, p);
    }
  }

  /** Within one file, the intended list of `s` has gained the path once some line
      seen so far matches `s`. */
  function Gained(prev: seq<string>, path: string, matched: bool): seq<string>
  {
    prev + (if matched && path !in prev then [path] else [])
  }

  /** The `for s in string` loop over one line, with the intended guard. */
  method AppendFirstMatches(m: map<string, seq<string>>, strings: seq<string>, path: string, line: string, caseSensitive: bool)
    returns (m': map<string, seq<string>>)
    requires m.Keys == set s | s in strings
    ensures m'.Keys == m.Keys
    ensures forall s | s in m :: m'[s] == Gained(m[s], path, LineMatches(s, line, caseSensitive))
  {
    m' := m;
    var k := 0;
    while k < |strings|
      invariant 0 <= k <= |strings|
      invariant m'.Keys == m.Keys
      invariant forall t | t in m :: m'[t] == Gained(m[t], path, LineMatches(t, line, caseSensitive) && t in strings[..k])
    {
      var s := strings[k];
      assert strings[..k + 1] == strings[..k] + [s];
      if LineMatches(s, line, caseSensitive) && path !in m'[s] {
        m' := m'[s := m'[s] + [path]];
      }
      k := k + 1;
    }
    assert strings[..k] == strings;
  }

  /** One line of the per-file loop with the intended guard, on the list of `s`. */
  lemma GainedStep(prior: seq<string>, mid: seq<string>, after: seq<string>, lines: seq<string>, j: nat,
                   s: string, path: string, caseSensitive: bool)
    requires j < |lines|
    requires mid == Gained(prior, path, AnyLineMatches(lines[..j], s, caseSensitive))
    requires after == Gained(mid, path, LineMatches(s, lines[j], caseSensitive))
    ensures after == Gained(prior, path, AnyLineMatches(lines[..j + 1], s, caseSensitive))
  {
    var earlier, now := AnyLineMatches(lines[..j], s, caseSensitive), LineMatches(s, lines[j], caseSensitive);
    assert AnyLineMatches(lines[..j + 1], s, caseSensitive) <==> earlier || now by {
      assert lines[..j + 1][j] == lines[j];
      assert forall x :: 0 <= x < j ==> lines[..j + 1][x] == lines[..j][x];
    }
    if earlier && now {
      assert path in mid;
      assert after == mid + [];
    }
  }

  /** The `for line in lines` loop over one file with a wanted extension, with the
      intended guard. */
  method ScanFileDeduped(m: map<string, seq<string>>, strings: seq<string>, f: WalkedFile, caseSensitive: bool)
    returns (m': map<string, seq<string>>)
    requires m.Keys == set s | s in strings
    ensures m'.Keys == m.Keys
    ensures forall s | s in m :: m'[s] == Gained(m[s], f.path, AnyLineMatches(f.lines, s, caseSensitive))
  {
    m' := m;
    var lines := f.lines;
    var j := 0;
    while j < |lines|
      invariant 0 <= j <= |lines|
      invariant m'.Keys == m.Keys
      invariant forall s | s in m :: m'[s] == Gained(m[s], f.path, AnyLineMatches(lines[..j], s, caseSensitive))
    {
      ghost var before := m';
      m' := AppendFirstMatches(m', strings, f.path, lines[j], caseSensitive);
      forall s | s in m
        ensures m'[s] == Gained(m[s], f.path, AnyLineMatches(lines[..j + 1], s, caseSensitive))
      {
        GainedStep(m[s], before[s], m'[s], lines, j, s, f.path, caseSensitive);
      }
      j := j + 1;
    }
    assert lines[..j] == lines;
  }

  /** One walked file of the intended search, on the list of `s`. */
  lemma FirstFileStep(prior: seq<string>, after: seq<string>, exts: seq<string>,
                      files: seq<WalkedFile>, i: nat, s: string, caseSensitive: bool)
    requires i < |files|
    requires prior == FirstHits(exts, files[..i], s, caseSensitive)
    requires after == if HasExtension(files[i].path, exts) then
        Gained(prior, files[i].path, AnyLineMatches(files[i].lines, s, caseSensitive))
      else prior
    ensures after == FirstHits(exts, files[..i + 1], s, caseSensitive)
  {
    FirstHitsStep(exts, files, i, s, caseSensitive);
    assert prior + [] == prior;
  }

  /** The search with the guard testing `filepath not in map_string_to_filepaths[s]`:
      each list holds each matching path once. */
  method GetFilepathsContainingStringDeduped(str: StrArg, files: seq<WalkedFile>, ext: StrArg, caseSensitive: bool)
    returns (m: map<string, seq<string>>)
    ensures m.Keys == set s | s in Squeeze(str)
    ensures forall s | s in m :: m[s] == FirstHits(Squeeze(ext), files, s, caseSensitive)
  {
    var strings, exts := Squeeze(str), Squeeze(ext);
    m := map s | s in strings :: [];
    var i := 0;
    while i < |files|
      invariant i <= |files|
      invariant WalkedDeduped(m, strings, exts, files, i, caseSensitive)
    {
      m := WalkFileDeduped(m, strings, exts, files, i, caseSensitive);
      i := i + 1;
    }
    assert files[..i] == files;
  }

  /** The map once the intended walk has visited the first `i` files. */
  predicate WalkedDeduped(m: map<string, seq<string>>, strings: seq<string>, exts: seq<string>,
                          files: seq<WalkedFile>, i: nat, caseSensitive: bool)
  {
    && i <= |files|
    && m.Keys == (set s | s in strings)
    && forall s | s in m :: m[s] == FirstHits(exts, files[..i], s, caseSensitive)
  }

  /** One walked file, with the intended guard. */
  method WalkFileDeduped(m: map<string, seq<string>>, strings: seq<string>, exts: seq<string>,
                         files: seq<WalkedFile>, i: nat, caseSensitive: bool)
    returns (m': map<string, seq<string>>)
    requires i < |files| && WalkedDeduped(m, strings, exts, files, i, caseSensitive)
    ensures WalkedDeduped(m', strings, exts, files, i + 1, caseSensitive)
  {
    var f := files[i];
    m' := m;
    if HasExtension(f.path, exts) {
      m' := ScanFileDeduped(m, strings, f, caseSensitive);
    }
    forall s | s in m'
      ensures m'[s] == FirstHits(exts, files[..i + 1], s, caseSensitive)
    {
      FirstFileStep(m[s], m'[s], exts, files, i, s, caseSensitive);
    }
  }
}
