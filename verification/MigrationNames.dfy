/**
Migration file names: versions, prefixes, and the order in which the files sort.
 */
module MigrationNames {

  function FirstIndex(s: string, c: char): (i: nat)
    ensures i <= |s|
    ensures i < |s| ==> s[i] == c
    ensures forall j :: 0 <= j < i ==> s[j] != c
  {
    if s == "" || s[0] == c then 0 else 1 + FirstIndex(s[1..], c)
  }

  /** The part of a path after its last slash. */
  function Base(path: string): (base: string)
    ensures '/' !in base
    decreases |path|
  {
    var i := FirstIndex(path, '/');
    if i < |path| then Base(path[i + 1..]) else path
  }

  /** The version of a migration file: its base name up to the first dot. */
  function VersionFromPath(path: string): (version: string) {
    Base(path)[..FirstIndex(Base(path), '.')]
  }

  /** The part of a version before its first underscore. */
  function PrefixOf(version: string): (prefix: string)
    ensures prefix <= version && '_' !in prefix
    ensures prefix != version ==> version[|prefix|] == '_'
  {
    version[..FirstIndex(version, '_')]
  }

  /** A non-empty string of digits, as legacy rows are. */
  predicate IsBare(s: string) {
    s != "" && forall i :: 0 <= i < |s| ==> '0' <= s[i] <= '9'
  }

  const DIR: string := "migrations/"

  /** A file stem without dots and slashes. */
  predicate IsStem(s: string) {
    '.' !in s && '/' !in s
  }

  function Path(stem: string, direction: string): (path: string) {
    DIR + (stem + ("." + direction + ".sql"))
  }

  lemma PathVersion(stem: string, direction: string)
    requires IsStem(stem) && '/' !in direction
    ensures VersionFromPath(Path(stem, direction)) == stem
  {
    var name := stem + ("." + direction + ".sql");
    var path := DIR + name;
    var i := FirstIndex(path, '/');
    assert DIR[10] == '/' && forall j :: 0 <= j < 10 ==> DIR[j] != '/';
    assert path[10] == '/' && forall j :: 0 <= j < 10 ==> path[j] == DIR[j];
    assert i == 10;
    assert path[11..] == name;
    assert '/' !in name;
    assert FirstIndex(name, '/') == |name|;
    assert Base(path) == name;
    assert name[|stem|] == '.' && forall j :: 0 <= j < |stem| ==> name[j] == stem[j];
    assert FirstIndex(name, '.') == |stem|;
  }

  // ---------------------------------------------------------------------------------------
  // Lexicographic order
  // ---------------------------------------------------------------------------------------

  predicate Less(a: string, b: string) {
    b != "" && (a == "" || a[0] < b[0] || (a[0] == b[0] && Less(a[1..], b[1..])))
  }

  lemma {:induction false} LessIsAsymmetric(a: string, b: string)
    requires Less(a, b)
    ensures !Less(b, a)
  {
    if a != "" && a[0] == b[0] {
      LessIsAsymmetric(a[1..], b[1..]);
    }
  }

  lemma {:induction false} CommonPrefix(d: string, a: string, b: string)
    ensures Less(d + a, d + b) == Less(a, b)
  {
    if d == "" {
      assert d + a == a && d + b == b;
    } else {
      CommonPrefix(d[1..], a, b);
      assert (d + a)[1..] == d[1..] + a && (d + b)[1..] == d[1..] + b;
    }
  }

  /** Dot-free stems compare alike whichever suffixes are appended, as long as these start with a
      dot. */
  lemma {:induction false} SuffixesSortAlike(a: string, b: string, s: string, t: string)
    requires '.' !in a && '.' !in b && a != b
    requires s != "" && s[0] == '.' && t != "" && t[0] == '.'
    ensures Less(a + s, b + s) == Less(a + t, b + t)
    decreases |a| + |b|
  {
    if a == "" {
      assert a + s == s && a + t == t;
      assert (b + s)[0] == b[0] && (b + t)[0] == b[0] && b[0] in b;
    } else if b == "" {
      assert b + s == s && b + t == t;
      assert (a + s)[0] == a[0] && (a + t)[0] == a[0] && a[0] in a;
    } else if a[0] == b[0] {
      assert a == [a[0]] + a[1..] && b == [b[0]] + b[1..];
      SuffixesSortAlike(a[1..], b[1..], s, t);
      assert (a + s)[1..] == a[1..] + s && (b + s)[1..] == b[1..] + s;
      assert (a + t)[1..] == a[1..] + t && (b + t)[1..] == b[1..] + t;
    }
  }

  lemma PathsSortAlike(a: string, b: string, up: string, down: string)
    requires IsStem(a) && IsStem(b) && a != b
    ensures Less(Path(a, up), Path(b, up)) == Less(Path(a, down), Path(b, down))
  {
    var s, t := "." + up + ".sql", "." + down + ".sql";
    CommonPrefix(DIR, a + s, b + s);
    CommonPrefix(DIR, a + t, b + t);
    SuffixesSortAlike(a, b, s, t);
  }

  // ---------------------------------------------------------------------------------------
  // File listings
  // ---------------------------------------------------------------------------------------

  ghost predicate Sorted(files: seq<string>) {
    forall i, j :: 0 <= i < j < |files| ==> Less(files[i], files[j])
  }

  /** files is the sorted listing of the migrations with these stems in one direction. */
  ghost predicate Listing(files: seq<string>, stems: seq<string>, direction: string) {
    && |files| == |stems| && '/' !in direction
    && (forall i :: 0 <= i < |stems| ==> IsStem(stems[i]) && files[i] == Path(stems[i], direction))
    && Sorted(files)
  }

  lemma ListedVersions(files: seq<string>, stems: seq<string>, direction: string)
    requires Listing(files, stems, direction)
    ensures forall i :: 0 <= i < |files| ==> VersionFromPath(files[i]) == stems[i]
    ensures forall i, j :: 0 <= i < j < |stems| ==> stems[i] != stems[j]
  {
    forall i | 0 <= i < |files| ensures VersionFromPath(files[i]) == stems[i] {
      PathVersion(stems[i], direction);
    }
    forall i, j | 0 <= i < j < |stems| ensures stems[i] != stems[j] {
      if stems[i] == stems[j] {
        LessIsAsymmetric(files[i], files[j]);
      }
    }
  }

  /** Two listings order the stems they share in the same way. */
  lemma ListingsAgree(up: seq<string>, us: seq<string>, down: seq<string>, ds: seq<string>, i: nat, j: nat, p: nat,
                      q: nat)
    requires Listing(up, us, "up") && Listing(down, ds, "down")
    requires i < j < |ds| && p < |us| && q < |us| && us[p] == ds[i] && us[q] == ds[j]
    ensures p < q
  {
    ListedVersions(down, ds, "down");
    PathsSortAlike(ds[i], ds[j], "up", "down");
    assert Less(down[i], down[j]);
    assert Less(up[p], up[q]);
    if q < p {
      LessIsAsymmetric(up[q], up[p]);
    }
  }
}
