/**
 * The two string operations the uploader applies to its input: splitting the
 * comma-separated file list (Python's `str.split` with an explicit separator,
 * driveuploader.py line 95) and taking the last component of a POSIX path
 * (`os.path.split(p)[-1]`, driveuploader.py line 159).
 */
module Paths {

  const Comma: char := ','
  const Slash: char := '/'

  /** The fields of `parts` written back with `sep` between them. */
  function Join(parts: seq<string>, sep: char): string
    requires |parts| >= 1
    decreases |parts|
  {
    if |parts| == 1 then parts[0] else parts[0] + [sep] + Join(parts[1..], sep)
  }

  /**
   * `s.split(sep)`: at least one field, empty fields kept, no field holds the
   * separator, and joining the fields gives `s` back.
   */
  function Split(s: string, sep: char): (parts: seq<string>)
    ensures |parts| >= 1
    ensures forall i :: 0 <= i < |parts| ==> sep !in parts[i]
    ensures Join(parts, sep) == s
    decreases |s|
  {
    if |s| == 0 then [""]
    else
      var rest := Split(s[1..], sep);
      if s[0] == sep then
        assert ([""] + rest)[1..] == rest;
        [""] + rest
      else
        var parts := [[s[0]] + rest[0]] + rest[1..];
        assert |rest| > 1 ==> parts[1..] == rest[1..] && Join(rest, sep) == rest[0] + [sep] + Join(rest[1..], sep);
        assert s == [s[0]] + s[1..];
        parts
  }

  /** Splitting a separator-free prefix followed by the separator peels off that prefix. */
  lemma {:induction false} SplitAfterField(a: string, b: string, sep: char)
    requires sep !in a
    ensures Split(a + [sep] + b, sep) == [a] + Split(b, sep)
    decreases |a|
  {
    if |a| == 0 {
      assert a + [sep] + b == [sep] + b;
      assert ([sep] + b)[1..] == b;
    } else {
      var s := a + [sep] + b;
      assert s[0] == a[0] && s[1..] == a[1..] + [sep] + b;
      SplitAfterField(a[1..], b, sep);
      assert [a[0]] + a[1..] == a;
    }
  }

  /** A string without the separator is a single field. */
  lemma {:induction false} SplitSingleField(a: string, sep: char)
    requires sep !in a
    ensures Split(a, sep) == [a]
    decreases |a|
  {
    if |a| > 0 {
      SplitSingleField(a[1..], sep);
      assert [a[0]] + a[1..] == a;
    }
  }

  /** Splitting undoes joining when no field holds the separator. */
  lemma {:induction false} SplitJoin(parts: seq<string>, sep: char)
    requires |parts| >= 1
    requires forall i :: 0 <= i < |parts| ==> sep !in parts[i]
    ensures Split(Join(parts, sep), sep) == parts
    decreases |parts|
  {
    if |parts| == 1 {
      SplitSingleField(parts[0], sep);
    } else {
      SplitJoin(parts[1..], sep);
      SplitAfterField(parts[0], Join(parts[1..], sep), sep);
      assert [parts[0]] + parts[1..] == parts;
    }
  }

  /**
   * The last component of a POSIX path: the longest suffix of `p` without a
   * slash. It is all of `p`, or the character before it is a slash.
   */
  function BaseName(p: string): (name: string)
    ensures |name| <= |p|
    ensures forall j :: 0 <= j < |name| ==> name[j] == p[|p| - |name| + j]
    ensures Slash !in name
    ensures |name| < |p| ==> p[|p| - |name| - 1] == Slash
  {
    p[ComponentStart(p, |p|)..]
  }

  /** Where the last path component of `p[..k]` starts: just after its last slash, or at 0. */
  function ComponentStart(p: string, k: nat): (start: nat)
    requires k <= |p|
    ensures start <= k
    ensures forall j :: start <= j < k ==> p[j] != Slash
    ensures start > 0 ==> p[start - 1] == Slash
    decreases k
  {
    if k == 0 || p[k - 1] == Slash then k else ComponentStart(p, k - 1)
  }

  /** A plain name placed after a directory prefix is what BaseName recovers. */
  lemma BaseNameAfterDirectory(dir: string, name: string)
    requires dir == [] || dir[|dir| - 1] == Slash
    requires Slash !in name
    ensures BaseName(dir + name) == name
  {
    var p := dir + name;
    var start := ComponentStart(p, |p|);
    assert forall j :: |dir| <= j < |p| ==> p[j] == name[j - |dir|];
    if |dir| > 0 {
      assert p[|dir| - 1] == Slash;
    }
    assert start == |dir|;
    assert p[start..] == name;
  }
}
