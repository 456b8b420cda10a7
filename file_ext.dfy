/**
 * File-name handling of src/fsvideo.js: `_getFileExt` splits a name on '.'
 * (JavaScript `String.prototype.split`) and takes the last piece.
 */
module FileExt {

  /** `s.split(sep)`: the pieces between separators, never an empty list. */
  function Split(s: string, sep: char): (parts: seq<string>)
    ensures |parts| >= 1
    ensures forall i :: 0 <= i < |parts| ==> sep !in parts[i]
  {
    if s == [] then [[]]
    else
      var rest := Split(s[1..], sep);
      if s[0] == sep then [[]] + rest
      else [[s[0]] + rest[0]] + rest[1..]
  }

  function Last(parts: seq<string>): string
    requires |parts| >= 1
  {
    parts[|parts| - 1]
  }

  /** The split has one piece exactly when s holds no separator, and that piece is s. */
  lemma {:induction false} SplitSingle(s: string, sep: char)
    ensures |Split(s, sep)| == 1 <==> sep !in s
    ensures |Split(s, sep)| == 1 ==> Last(Split(s, sep)) == s
  {
    if s != [] {
      var t := s[1..];
      SplitSingle(t, sep);
      var rest := Split(t, sep);
      assert s == [s[0]] + t;
      if s[0] == sep {
        assert s[0] in s;
      } else if |rest| == 1 {
        assert Last(Split(s, sep)) == [s[0]] + rest[0];
      } else {
        assert sep in t;
      }
    }
  }

  /** The last piece is a suffix of s, and when there are several pieces a separator precedes it. */
  lemma {:induction false} SplitLast(s: string, sep: char)
    ensures |Last(Split(s, sep))| <= |s|
    ensures s[|s| - |Last(Split(s, sep))|..] == Last(Split(s, sep))
    ensures |Split(s, sep)| > 1 ==>
              |Last(Split(s, sep))| < |s| && s[|s| - |Last(Split(s, sep))| - 1] == sep
  {
    if s != [] {
      var t := s[1..];
      SplitLast(t, sep);
      var rest := Split(t, sep);
      var last := Last(rest);
      if s[0] == sep || |rest| > 1 {
        assert Last(Split(s, sep)) == last;
        assert s[|s| - |last|..] == t[|t| - |last|..];
        if |rest| > 1 {
          assert s[|s| - |last| - 1] == t[|t| - |last| - 1];
        } else {
          SplitSingle(t, sep);
        }
      } else {
        SplitSingle(t, sep);
        assert Last(Split(s, sep)) == [s[0]] + t;
        assert s == [s[0]] + t;
      }
    }
  }

  /** `parts.join(sep)`. */
  function Join(parts: seq<string>, sep: char): string
    requires |parts| >= 1
  {
    if |parts| == 1 then parts[0] else parts[0] + [sep] + Join(parts[1..], sep)
  }

  /** Joining the pieces again gives back the original name. */
  lemma {:induction false} JoinSplit(s: string, sep: char)
    ensures Join(Split(s, sep), sep) == s
  {
    if s != [] {
      JoinSplit(s[1..], sep);
      var rest := Split(s[1..], sep);
      if s[0] != sep {
        if |rest| == 1 {
          assert Join(rest, sep) == rest[0];
        } else {
          assert Join(rest, sep) == rest[0] + [sep] + Join(rest[1..], sep);
          assert ([[s[0]] + rest[0]] + rest[1..])[1..] == rest[1..];
        }
      } else {
        assert ([[]] + rest)[1..] == rest;
      }
    }
  }

  /** `_getFileExt(fileName)`: the last piece of `fileName.split('.')`. */
  function GetFileExt(fileName: string): (ext: string)
    ensures '.' !in ext
  {
    Last(Split(fileName, '.'))
  }

  /**
   * The extension holds no '.', ends the name, is the whole name exactly when
   * the name has no '.', and otherwise follows a '.'.
   */
  lemma ExtIsSuffix(fileName: string)
    ensures '.' !in GetFileExt(fileName)
    ensures EndsWith(fileName, GetFileExt(fileName))
    ensures GetFileExt(fileName) == fileName <==> '.' !in fileName
    ensures '.' in fileName ==> EndsWith(fileName, "." + GetFileExt(fileName))
    ensures '.' in fileName ==> fileName[|fileName| - |GetFileExt(fileName)| - 1] == '.'
  {
    var ext := GetFileExt(fileName);
    SplitSingle(fileName, '.');
    SplitLast(fileName, '.');
    if '.' in fileName {
      var n := |fileName| - |ext| - 1;
      assert fileName[n..] == [fileName[n]] + fileName[n + 1..];
    }
  }

  /** `s` ends with `suffix`. */
  predicate EndsWith(s: string, suffix: string)
  {
    |suffix| <= |s| && s[|s| - |suffix|..] == suffix
  }

  /** Index of the last occurrence of c in s, or -1 when there is none. */
  function LastIndexOf(s: string, c: char): (k: int)
    ensures -1 <= k < |s|
    ensures k >= 0 ==> s[k] == c
    ensures forall j :: k < j < |s| ==> s[j] != c
  {
    if s == [] then -1
    else if s[|s| - 1] == c then |s| - 1
    else LastIndexOf(s[..|s| - 1], c)
  }

  /** The extension is exactly the text after the last '.', or the whole name without one. */
  lemma ExtIsAfterLastDot(fileName: string)
    ensures GetFileExt(fileName) == fileName[LastIndexOf(fileName, '.') + 1..]
  {
    var ext := GetFileExt(fileName);
    ExtIsSuffix(fileName);
    var k := LastIndexOf(fileName, '.');
    if '.' in fileName {
      var d := |fileName| - |ext| - 1;
      assert fileName[d] == '.';
      assert k >= d;
      assert forall j :: d < j < |fileName| ==> fileName[j] == ext[j - d - 1];
      assert k == d;
    } else {
      assert fileName[0..] == fileName;
    }
  }

  /** A name that ends in '.' and a dot-free word has that word as its extension. */
  lemma ExtAfterDot(fileName: string, t: string)
    requires '.' !in t && EndsWith(fileName, "." + t)
    ensures GetFileExt(fileName) == t
  {
    ExtIsSuffix(fileName);
    var ext := GetFileExt(fileName);
    var d := |fileName| - |t| - 1;
    assert fileName[d..] == "." + t;
    assert fileName[d] == '.';
    // no dot after d, and none in the extension's span
    assert forall j :: d < j < |fileName| ==> fileName[j] == t[j - d - 1];
    assert forall j :: |fileName| - |ext| <= j < |fileName| ==> fileName[j] == ext[j - (|fileName| - |ext|)];
    assert |ext| == |t|;
  }

  /** The extension is a given dot-free word exactly when the name is that word or ends in '.' and that word. */
  lemma ExtIsWord(fileName: string, t: string)
    requires '.' !in t
    ensures GetFileExt(fileName) == t <==> fileName == t || EndsWith(fileName, "." + t)
  {
    ExtIsSuffix(fileName);
    if EndsWith(fileName, "." + t) {
      ExtAfterDot(fileName, t);
    }
  }

  lemma NestedExtExample()
    ensures GetFileExt("a.tar.gz") == "gz"
  {
    ExtAfterDot("a.tar.gz", "gz");
  }

  lemma NoDotExample()
    ensures GetFileExt("noext") == "noext"
  {
    ExtIsSuffix("noext");
  }
}
