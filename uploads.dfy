/** Saving uploaded CSV files under unique names (`_save_uploaded_files`):
    each file's name loses its extension, every character outside
    `[A-Za-z0-9_-]` becomes '_', an empty result becomes "uploaded", and the
    first of `base.csv`, `base_1.csv`, `base_2.csv`, ... that is not already
    in the raw-data directory is the name it is saved under. */
module Uploads {
  import opened Text

  type Bytes = seq<bv8>

  /** Position of the last `c` in `s`, or -1 when `s` has none. */
  function LastIndex(s: string, c: char): (r: int)
    ensures -1 <= r < |s|
    ensures r >= 0 ==> s[r] == c
    ensures forall j :: r < j < |s| ==> s[j] != c
    decreases |s|
  {
    if s == [] then -1
    else if s[|s| - 1] == c then |s| - 1
    else LastIndex(s[..|s| - 1], c)
  }

  predicate AllDots(s: string) {
    forall i :: 0 <= i < |s| ==> s[i] == '.'
  }

  /** `os.path.splitext` on POSIX paths: the extension is the text from the
      last '.' of the final path component on, unless every character of the
      component before that '.' is a '.' too (".bashrc", "..x" have none). */
  function SplitExt(p: string): (r: (string, string))
    ensures r.0 + r.1 == p
  {
    SplitAt(p, LastIndex(p, '/'), LastIndex(p, '.'))
  }

  /** The split, given where the last '/' and the last '.' are. */
  function SplitAt(p: string, sep: int, dot: int): (r: (string, string))
    requires -1 <= sep < |p| && -1 <= dot < |p|
    ensures r.0 + r.1 == p
  {
    if dot > sep && !AllDots(p[sep + 1..dot]) then (p[..dot], p[dot..]) else (p, [])
  }

  /** The extension is empty or a '.' followed by neither '.' nor '/'. */
  lemma ExtensionShape(p: string)
    ensures var ext := SplitExt(p).1;
            ext != [] ==> ext[0] == '.' && forall i :: 1 <= i < |ext| ==> ext[i] != '.' && ext[i] != '/'
  {
    var sep := LastIndex(p, '/');
    var dot := LastIndex(p, '.');
    if dot > sep && !AllDots(p[sep + 1..dot]) {
      var ext := p[dot..];
      forall i | 1 <= i < |ext| ensures ext[i] != '.' && ext[i] != '/' {
        assert ext[i] == p[dot + i];
      }
    }
  }

  /** The '.' at `i` starts the extension: no '.' or '/' follows it, and
      before it, in the same path component, is some character other
      than '.'. */
  predicate ExtensionAt(p: string, i: int) {
    && 0 <= i < |p| && p[i] == '.'
    && (forall j :: i < j < |p| ==> p[j] != '.' && p[j] != '/')
    && exists j :: 0 <= j < i && p[j] != '.' && forall k :: j <= k < i ==> p[k] != '/'
  }

  /** `splitext` splits at the '.' that starts the extension, when there is
      one, and otherwise leaves the whole path as the stem; the stem is
      empty only for the empty path. */
  lemma SplitExtMeaning(p: string)
    ensures SplitExt(p).1 != [] ==> ExtensionAt(p, |SplitExt(p).0|)
    ensures SplitExt(p).1 == [] ==> SplitExt(p).0 == p && forall i :: 0 <= i < |p| ==> !ExtensionAt(p, i)
    ensures SplitExt(p).0 == [] <==> p == []
  {
    SplitAtMeaning(p, LastIndex(p, '/'), LastIndex(p, '.'));
  }

  lemma SplitAtMeaning(p: string, sep: int, dot: int)
    requires LastAt(p, '/', sep) && LastAt(p, '.', dot)
    ensures SplitAt(p, sep, dot).1 != [] ==> ExtensionAt(p, |SplitAt(p, sep, dot).0|)
    ensures SplitAt(p, sep, dot).1 == [] ==> SplitAt(p, sep, dot).0 == p && forall i :: 0 <= i < |p| ==> !ExtensionAt(p, i)
    ensures SplitAt(p, sep, dot).0 == [] <==> p == []
  {
    if dot > sep && !AllDots(p[sep + 1..dot]) {
      ExtensionAtLastDot(p, sep, dot);
    } else {
      forall i | 0 <= i < |p| ensures !ExtensionAt(p, i) {
        ExtensionIsAtLastDot(p, sep, dot, i);
      }
    }
  }

  /** `r` is where the last `c` of `p` is, or -1 when there is none. */
  predicate LastAt(p: string, c: char, r: int) {
    -1 <= r < |p| && (r >= 0 ==> p[r] == c) && forall k :: r < k < |p| ==> p[k] != c
  }

  /** The split point `splitext` uses starts the extension. */
  lemma ExtensionAtLastDot(p: string, sep: int, dot: int)
    requires LastAt(p, '/', sep) && LastAt(p, '.', dot)
    requires dot > sep && !AllDots(p[sep + 1..dot])
    ensures ExtensionAt(p, dot) && dot > 0
  {
    var j := NotDotWitness(p, sep + 1, dot);
    assert p[j] != '.' && forall k :: j <= k < dot ==> p[k] != '/';
  }

  /** A '.' that starts an extension is the split point `splitext` uses. */
  lemma ExtensionIsAtLastDot(p: string, sep: int, dot: int, i: int)
    requires LastAt(p, '/', sep) && LastAt(p, '.', dot)
    ensures ExtensionAt(p, i) ==> i == dot && dot > sep && !AllDots(p[sep + 1..dot])
  {
    if ExtensionAt(p, i) {
      assert dot == i;
      var j :| 0 <= j < i && p[j] != '.' && forall k :: j <= k < i ==> p[k] != '/';
      assert sep < j;
      NotAllDots(p, sep + 1, dot, j);
    }
  }

  lemma NotDotWitness(p: string, lo: int, hi: int) returns (j: int)
    requires 0 <= lo <= hi <= |p| && !AllDots(p[lo..hi])
    ensures lo <= j < hi && p[j] != '.'
  {
    var m :| 0 <= m < hi - lo && p[lo..hi][m] != '.';
    j := lo + m;
  }

  lemma NotAllDots(p: string, lo: int, hi: int, j: int)
    requires 0 <= lo <= j < hi <= |p| && p[j] != '.'
    ensures !AllDots(p[lo..hi])
  {
    assert p[lo..hi][j - lo] == p[j];
  }

  /** A character `re.sub(r"[^A-Za-z0-9_-]", "_", ...)` leaves alone. */
  predicate SafeChar(c: char) {
    ('A' <= c <= 'Z') || ('a' <= c <= 'z') || ('0' <= c <= '9') || c == '_' || c == '-'
  }

  predicate AllSafe(s: string) {
    forall i :: 0 <= i < |s| ==> SafeChar(s[i])
  }

  /** Every unsafe character replaced by '_'. */
  function Sanitize(s: string): (r: string)
    ensures |r| == |s| && AllSafe(r)
    decreases |s|
  {
    if s == [] then []
    else Sanitize(s[..|s| - 1]) + [if SafeChar(s[|s| - 1]) then s[|s| - 1] else '_']
  }

  /** Sanitizing keeps the safe characters in place and puts '_' exactly where
      an unsafe one was. */
  lemma {:induction false} SanitizeAt(s: string, i: nat)
    requires i < |s|
    ensures Sanitize(s)[i] == if SafeChar(s[i]) then s[i] else '_'
    decreases |s|
  {
    if i < |s| - 1 {
      SanitizeAt(s[..|s| - 1], i);
    }
  }

  /** A safe name is left as it is, and only a safe name is. */
  lemma SanitizeFixesSafeNames(s: string)
    ensures Sanitize(s) == s <==> AllSafe(s)
  {
    if AllSafe(s) {
      forall i | 0 <= i < |s| ensures Sanitize(s)[i] == s[i] {
        SanitizeAt(s, i);
      }
    }
  }

  lemma SanitizeIdempotent(s: string)
    ensures Sanitize(Sanitize(s)) == Sanitize(s)
  {
    SanitizeFixesSafeNames(Sanitize(s));
  }

  /** The base a file is saved under: its name without extension, sanitized,
      or "uploaded" when nothing is left. */
  function SafeBase(filename: string): (r: string)
    ensures r != [] && AllSafe(r)
  {
    var s := Sanitize(SplitExt(filename).0);
    if s == [] then "uploaded" else s
  }

  /** An empty file name is saved as "uploaded"; any other name keeps its
      stem, with every character outside `[A-Za-z0-9_-]` replaced by '_'. */
  lemma SafeBaseMeaning(filename: string)
    ensures filename == [] ==> SafeBase(filename) == "uploaded"
    ensures filename != [] ==> var stem := SplitExt(filename).0;
              && |SafeBase(filename)| == |stem|
              && forall i :: 0 <= i < |stem| ==> SafeBase(filename)[i] == if SafeChar(stem[i]) then stem[i] else '_'
  {
    var stem := SplitExt(filename).0;
    SplitExtMeaning(filename);
    SanitizeEach(stem);
  }

  lemma SanitizeEach(s: string)
    ensures forall i :: 0 <= i < |s| ==> Sanitize(s)[i] == if SafeChar(s[i]) then s[i] else '_'
  {
    forall i | 0 <= i < |s| ensures Sanitize(s)[i] == if SafeChar(s[i]) then s[i] else '_' {
      SanitizeAt(s, i);
    }
  }

  /** The `k`-th name tried for `base`: `base.csv` first, then `base_k.csv`. */
  function Candidate(base: string, k: nat): string {
    if k == 0 then base + ".csv" else base + "_" + Decimal(k) + ".csv"
  }

  /** Different attempts for one base are different names. */
  lemma CandidateInjective(base: string, j: nat, k: nat)
    requires Candidate(base, j) == Candidate(base, k)
    ensures j == k
  {
    if j != 0 && k != 0 {
      var a, b := Candidate(base, j), Candidate(base, k);
      assert Decimal(j) == a[|base| + 1..|a| - 4];
      assert Decimal(k) == b[|base| + 1..|b| - 4];
      DecimalInjective(j, k);
    }
  }

  lemma NoDotInSafe(s: string)
    requires AllSafe(s)
    ensures forall i :: 0 <= i < |s| ==> s[i] != '.' && s[i] != '/'
  {
    forall i | 0 <= i < |s| ensures s[i] != '.' && s[i] != '/' {
      assert SafeChar(s[i]);
    }
  }

  /** A name made of a stem without '.' or '/' and ".csv" splits into exactly those. */
  lemma SplitCsv(stem: string)
    requires stem != []
    requires forall i :: 0 <= i < |stem| ==> stem[i] != '.' && stem[i] != '/'
    ensures SplitExt(stem + ".csv") == (stem, ".csv")
  {
    var p := stem + ".csv";
    assert p[|stem|] == '.';
    assert forall j :: |stem| < j < |p| ==> p[j] != '.' by {
      assert p[|stem| + 1..] == "csv";
    }
    assert LastIndex(p, '.') == |stem|;
    assert forall j :: 0 <= j < |p| ==> p[j] != '/';
    assert LastIndex(p, '/') == -1;
    assert p[..|stem|] == stem;
    assert p[0] != '.';
  }

  /** The stem of the `k`-th attempt for a safe base. */
  function AttemptStem(base: string, k: nat): string {
    if k == 0 then base else base + "_" + Decimal(k)
  }

  lemma AttemptStemSafe(base: string, k: nat)
    requires AllSafe(base)
    ensures AllSafe(AttemptStem(base, k))
  {
    var stem := AttemptStem(base, k);
    forall i | 0 <= i < |stem| ensures SafeChar(stem[i]) {
      if k != 0 && i >= |base| + 1 {
        assert stem[i] == Decimal(k)[i - |base| - 1];
      }
    }
  }

  /** Uploading a saved file again gives back the base it was saved under,
      with the attempt number as part of it when it had one. */
  lemma SafeBaseOfCandidate(base: string, k: nat)
    requires base != [] && AllSafe(base)
    ensures SafeBase(Candidate(base, k)) == AttemptStem(base, k)
  {
    var stem := AttemptStem(base, k);
    assert Candidate(base, k) == stem + ".csv";
    AttemptStemSafe(base, k);
    NoDotInSafe(stem);
    SplitCsv(stem);
    SanitizeFixesSafeNames(stem);
  }

  /** The names `base.csv`, `base_1.csv`, ... up to attempt `k`, exclusive. */
  function CandidatesBelow(base: string, k: nat): (r: set<string>)
    ensures forall j :: 0 <= j < k ==> Candidate(base, j) in r
  {
    if k == 0 then {} else CandidatesBelow(base, k - 1) + {Candidate(base, k - 1)}
  }

  lemma {:induction false} CandidateBelowWitness(base: string, k: nat, name: string) returns (j: nat)
    requires name in CandidatesBelow(base, k)
    ensures j < k && Candidate(base, j) == name
    decreases k
  {
    if name == Candidate(base, k - 1) {
      j := k - 1;
    } else {
      j := CandidateBelowWitness(base, k - 1, name);
    }
  }

  /** The first `k` attempts are `k` different names. */
  lemma {:induction false} CandidatesBelowSize(base: string, k: nat)
    ensures |CandidatesBelow(base, k)| == k
    decreases k
  {
    if k > 0 {
      CandidatesBelowSize(base, k - 1);
      if Candidate(base, k - 1) in CandidatesBelow(base, k - 1) {
        var j := CandidateBelowWitness(base, k - 1, Candidate(base, k - 1));
        CandidateInjective(base, j, k - 1);
      }
    }
  }

  /** When the first `k` attempts are all taken, there are at least `k` names. */
  lemma TakenAttemptsBound(names: set<string>, base: string, k: nat)
    requires forall j :: 0 <= j < k ==> Candidate(base, j) in names
    ensures k <= |names|
  {
    var below := CandidatesBelow(base, k);
    forall name | name in below ensures name in names {
      var j := CandidateBelowWitness(base, k, name);
    }
    CandidatesBelowSize(base, k);
    SubsetSize(below, names);
  }

  lemma {:induction false} SubsetSize<T>(a: set<T>, b: set<T>)
    requires a <= b
    ensures |a| <= |b|
    decreases |a|
  {
    if a != {} {
      var x :| x in a;
      SubsetSize(a - {x}, b - {x});
    }
  }

  /** The first free attempt from `k` on, given that attempt `k` is at most
      the number of names. */
  function FirstFreeFrom(names: set<string>, base: string, k: nat): (r: nat)
    requires k <= |names|
    requires forall j :: 0 <= j < k ==> Candidate(base, j) in names
    ensures k <= r && Candidate(base, r) !in names
    ensures forall j :: 0 <= j < r ==> Candidate(base, j) in names
    decreases |names| - k
  {
    if Candidate(base, k) !in names then k
    else
      TakenAttemptsBound(names, base, k + 1);
      FirstFreeFrom(names, base, k + 1)
  }

  /** The attempt `_save_uploaded_files` settles on for `base`. */
  function LeastFree(names: set<string>, base: string): (k: nat)
    ensures Candidate(base, k) !in names
    ensures forall j :: 0 <= j < k ==> Candidate(base, j) in names
  {
    FirstFreeFrom(names, base, 0)
  }

  /** The name the least free attempt gives is the only free name whose
      smaller attempts are all taken. */
  lemma LeastFreeIsUnique(names: set<string>, base: string, k: nat)
    requires Candidate(base, k) !in names
    requires forall j :: 0 <= j < k ==> Candidate(base, j) in names
    ensures k == LeastFree(names, base)
  {
  }

  /** The name one upload is saved under when the directory holds `names`. */
  function SaveName(names: set<string>, filename: string): (r: string)
    ensures r !in names
  {
    var base := SafeBase(filename);
    Candidate(base, LeastFree(names, base))
  }

  /** The names one batch of uploads is saved under, given the names the
      directory holds before it: each upload takes the least free attempt,
      and that name is taken for the uploads after it. */
  function SavedNames(names: set<string>, filenames: seq<string>): (r: seq<string>)
    ensures |r| == |filenames|
    decreases |filenames|
  {
    if filenames == [] then []
    else
      var name := SaveName(names, filenames[0]);
      [name] + SavedNames(names + {name}, filenames[1..])
  }

  /** No saved name was in the directory before. */
  lemma {:induction false} SavedNamesAreFresh(names: set<string>, filenames: seq<string>)
    ensures forall i :: 0 <= i < |filenames| ==> SavedNames(names, filenames)[i] !in names
    decreases |filenames|
  {
    if filenames != [] {
      var name := SaveName(names, filenames[0]);
      var rest := SavedNames(names + {name}, filenames[1..]);
      SavedNamesAreFresh(names + {name}, filenames[1..]);
      var r := SavedNames(names, filenames);
      assert r == [name] + rest;
      forall i | 0 <= i < |filenames| ensures r[i] !in names {
        if i > 0 {
          assert r[i] == rest[i - 1];
        }
      }
    }
  }

  /** Within one batch no two uploads are saved under the same name. */
  lemma {:induction false} SavedNamesAreDistinct(names: set<string>, filenames: seq<string>)
    ensures forall i, j :: 0 <= i < j < |filenames| ==> SavedNames(names, filenames)[i] != SavedNames(names, filenames)[j]
    decreases |filenames|
  {
    if filenames != [] {
      var name := SaveName(names, filenames[0]);
      var rest := SavedNames(names + {name}, filenames[1..]);
      SavedNamesAreDistinct(names + {name}, filenames[1..]);
      SavedNamesAreFresh(names + {name}, filenames[1..]);
      var r := SavedNames(names, filenames);
      assert r == [name] + rest;
      forall i, j | 0 <= i < j < |filenames| ensures r[i] != r[j] {
        FirstAndRest(r, name, rest, i, j);
      }
    }
  }

  lemma FirstAndRest(r: seq<string>, name: string, rest: seq<string>, i: nat, j: nat)
    requires r == [name] + rest && i < j < |r|
    ensures r[j] == rest[j - 1] && (i == 0 ==> r[i] == name) && (i > 0 ==> r[i] == rest[i - 1])
  {
  }

  /** Each upload is saved under an attempt for its own safe base. */
  lemma {:induction false} SavedNamesAreCandidates(names: set<string>, filenames: seq<string>, i: nat) returns (k: nat)
    requires i < |filenames|
    ensures SavedNames(names, filenames)[i] == Candidate(SafeBase(filenames[i]), k)
    decreases i
  {
    var name := SaveName(names, filenames[0]);
    var rest := SavedNames(names + {name}, filenames[1..]);
    if i == 0 {
      assert SavedNames(names, filenames)[0] == name;
      k := LeastFree(names, SafeBase(filenames[0]));
    } else {
      assert SavedNames(names, filenames)[i] == rest[i - 1];
      k := SavedNamesAreCandidates(names + {name}, filenames[1..], i - 1);
    }
  }

  /** One uploaded file: the name the client gave and its contents. */
  datatype Upload = Upload(filename: string, content: Bytes)

  function Filenames(uploads: seq<Upload>): (r: seq<string>)
    ensures |r| == |uploads| && forall i :: 0 <= i < |r| ==> r[i] == uploads[i].filename
  {
    seq(|uploads|, i requires 0 <= i < |uploads| => uploads[i].filename)
  }

  /** The directory after writing each upload's contents under its name, in turn. */
  function Stored(files: map<string, Bytes>, names: seq<string>, uploads: seq<Upload>): map<string, Bytes>
    requires |names| == |uploads|
    decreases |names|
  {
    if names == [] then files
    else Stored(files, names[..|names| - 1], uploads[..|uploads| - 1])[names[|names| - 1] := uploads[|uploads| - 1].content]
  }

  /** Writing the uploads adds exactly their names to the directory, and
      every name holds the contents of the last upload saved under it or,
      if none, what it held before. */
  lemma {:induction false} StoredContents(files: map<string, Bytes>, names: seq<string>, uploads: seq<Upload>, n: string)
    requires |names| == |uploads|
    ensures n in Stored(files, names, uploads) <==> n in files || n in names
    ensures n !in names && n in files ==> Stored(files, names, uploads)[n] == files[n]
    ensures forall i :: 0 <= i < |names| && names[i] == n && (forall j :: i < j < |names| ==> names[j] != n) ==>
              Stored(files, names, uploads)[n] == uploads[i].content
    decreases |names|
  {
    if names != [] {
      var k := |names| - 1;
      StoredContents(files, names[..k], uploads[..k], n);
      assert forall x :: x in names <==> x in names[..k] || x == names[k];
    }
  }

  /** The raw-data directory: the files it holds, by name. */
  class RawDir {
    var files: map<string, Bytes>

    constructor(files0: map<string, Bytes>)
      ensures files == files0
    {
      files := files0;
    }

    /** The uniqueness loop: try `base.csv`, then `base_1.csv`, `base_2.csv`,
        ... until a name is not in the directory. */
    method FreeName(base: string) returns (fname: string, counter: nat)
      ensures fname !in files
      ensures counter >= 1 && fname == Candidate(base, counter - 1)
      ensures counter - 1 == LeastFree(files.Keys, base)
    {
      fname := base + ".csv";
      counter := 1;
      while fname in files
        invariant counter >= 1 && fname == Candidate(base, counter - 1)
        invariant forall j :: 0 <= j < counter - 1 ==> Candidate(base, j) in files.Keys
        invariant counter - 1 <= |files.Keys|
        decreases |files.Keys| - (counter - 1)
      {
        TakenAttemptsBound(files.Keys, base, counter);
        fname := base + "_" + Decimal(counter) + ".csv";
        counter := counter + 1;
      }
      LeastFreeIsUnique(files.Keys, base, counter - 1);
    }

    /** The body of the loop over the uploads: find the name and write the
        contents under it. */
    method SaveOne(u: Upload) returns (fname: string)
      modifies this
      ensures fname == SaveName(old(files).Keys, u.filename)
      ensures files == old(files)[fname := u.content]
      ensures files.Keys == old(files).Keys + {fname}
    {
      var base := SafeBase(u.filename);
      var counter;
      fname, counter := FreeName(base);
      files := files[fname := u.content];
    }

    /** `_save_uploaded_files`: save each upload under the name the loop
        finds for it and return those names in upload order. */
    method SaveUploadedFiles(uploads: seq<Upload>) returns (saved: seq<string>)
      modifies this
      ensures saved == SavedNames(old(files).Keys, Filenames(uploads))
      ensures files == Stored(old(files), saved, uploads)
    {
      ghost var files0 := files;
      ghost var filenames := Filenames(uploads);
      saved := [];
      var i := 0;
      assert filenames[0..] == filenames;
      while i < |uploads|
        invariant 0 <= i <= |uploads| && |saved| == i
        invariant saved + SavedNames(files.Keys, filenames[i..]) == SavedNames(files0.Keys, filenames)
        invariant files == Stored(files0, saved, uploads[..i])
      {
        PrefixStep(uploads, i);
        SavedNamesAdvance(saved, files.Keys, filenames, i, SavedNames(files0.Keys, filenames));
        StoredStep(files0, saved, uploads[..i], SaveName(files.Keys, uploads[i].filename), uploads[i]);
        var fname := SaveOne(uploads[i]);
        saved := saved + [fname];
        i := i + 1;
      }
      assert uploads[..i] == uploads;
    }
  }

  /** Saving one more upload moves its name from the names still to come
      to the names saved. */
  lemma SavedNamesAdvance(saved: seq<string>, names: set<string>, filenames: seq<string>, i: nat, all: seq<string>)
    requires i < |filenames|
    requires saved + SavedNames(names, filenames[i..]) == all
    ensures var n := SaveName(names, filenames[i]);
            (saved + [n]) + SavedNames(names + {n}, filenames[i + 1..]) == all
  {
    var n := SaveName(names, filenames[i]);
    assert filenames[i..][1..] == filenames[i + 1..];
    assert SavedNames(names, filenames[i..]) == [n] + SavedNames(names + {n}, filenames[i + 1..]);
  }

  lemma StoredStep(files: map<string, Bytes>, names: seq<string>, uploads: seq<Upload>, n: string, u: Upload)
    requires |names| == |uploads|
    ensures Stored(files, names + [n], uploads + [u]) == Stored(files, names, uploads)[n := u.content]
  {
    assert (names + [n])[..|names|] == names;
    assert (uploads + [u])[..|uploads|] == uploads;
  }

  lemma PrefixStep<T>(s: seq<T>, i: nat)
    requires i < |s|
    ensures s[..i] + [s[i]] == s[..i + 1]
  {
  }

}
