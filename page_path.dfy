/**
 * The "current page" of a location pathname, as both navigation scripts compute it:
 * `pathname.split('/').pop() || 'index.html'`.
 */
module PagePath {

  /** JavaScript's `s.split(sep)` for a one-character separator: the maximal runs
      between separators, always at least one (possibly empty) part. */
  function Split(s: string, sep: char): (parts: seq<string>)
    ensures |parts| >= 1
    ensures forall k :: 0 <= k < |parts| ==> sep !in parts[k]
  {
    if s == [] then [[]]
    else if s[0] == sep then [[]] + Split(s[1..], sep)
    else
      var rest := Split(s[1..], sep);
      [[s[0]] + rest[0]] + rest[1..]
  }

  /** Inverse of Split: the parts glued back together with the separator between them. */
  function Join(parts: seq<string>, sep: char): string
    requires |parts| >= 1
  {
    if |parts| == 1 then parts[0] else parts[0] + [sep] + Join(parts[1..], sep)
  }

  /** `Array.prototype.pop` on a non-empty array, as a value. */
  function Last<T>(xs: seq<T>): T
    requires |xs| >= 1
  {
    xs[|xs| - 1]
  }

  /** `s.split('/').pop()`. */
  function LastSegment(s: string): string
  {
    Last(Split(s, '/'))
  }

  /** `pathname.split('/').pop() || 'index.html'`: the empty string is falsy, so an
      empty last segment (the path ends in '/', or is empty) falls back to the home page. */
  function CurrentPage(pathname: string): (page: string)
    ensures page != []
    ensures '/' !in page
    ensures page == LastSegment(pathname) || (LastSegment(pathname) == [] && page == "index.html")
  {
    var segment := LastSegment(pathname);
    if segment == [] then "index.html" else segment
  }

  /** Splitting and joining again gives back the original text. */
  lemma {:induction false} JoinSplit(s: string, sep: char)
    ensures Join(Split(s, sep), sep) == s
  {
    if s == [] {
    } else if s[0] == sep {
      JoinSplit(s[1..], sep);
      var rest := Split(s[1..], sep);
      assert Split(s, sep) == [[]] + rest;
      assert ([[]] + rest)[1..] == rest;
      assert s == [sep] + s[1..];
    } else {
      JoinSplit(s[1..], sep);
      var rest := Split(s[1..], sep);
      var parts := [[s[0]] + rest[0]] + rest[1..];
      assert Split(s, sep) == parts;
      if |rest| == 1 {
        assert s == [s[0]] + rest[0];
      } else {
        assert parts[1..] == rest[1..];
        assert Join(rest, sep) == rest[0] + [sep] + Join(rest[1..], sep);
        assert s == [s[0]] + s[1..];
      }
    }
  }

  /** The last segment is the text after the last '/': a suffix of the path that holds
      no '/', and is either the whole path or is preceded by a '/'. */
  lemma {:induction false} LastSegmentIsTextAfterLastSlash(s: string)
    ensures var seg := LastSegment(s);
      && |seg| <= |s|
      && seg == s[|s| - |seg|..]
      && '/' !in seg
      && (|seg| < |s| ==> s[|s| - |seg| - 1] == '/')
  {
    if s == [] {
    } else {
      LastSegmentIsTextAfterLastSlash(s[1..]);
      var rest := Split(s[1..], '/');
      var seg' := Last(rest);
      if s[0] == '/' {
        assert Split(s, '/') == [[]] + rest;
        assert LastSegment(s) == seg';
      } else if |rest| == 1 {
        JoinSplit(s[1..], '/');
        assert seg' == s[1..];
        assert LastSegment(s) == [s[0]] + seg';
        assert s == [s[0]] + s[1..];
      } else {
        JoinSplit(s[1..], '/');
        assert s[1..] == rest[0] + ['/'] + Join(rest[1..], '/');
        assert s[1..][|rest[0]|] == '/';
        assert |seg'| < |s| - 1;
        assert Split(s, '/') == [[s[0]] + rest[0]] + rest[1..];
        assert LastSegment(s) == seg';
      }
    }
  }

  /** Whatever precedes the last '/' does not matter: the segment after it is the result. */
  lemma LastSegmentAfterSlash(prefix: string, name: string)
    requires '/' !in name
    ensures LastSegment(prefix + ['/'] + name) == name
  {
    var s := prefix + ['/'] + name;
    LastSegmentIsTextAfterLastSlash(s);
    var seg := LastSegment(s);
    assert s[|prefix|] == '/';
    assert forall k :: |prefix| < k < |s| ==> s[k] == name[k - |prefix| - 1];
    assert |seg| == |name|;
    assert seg == s[|prefix| + 1..] == name;
  }

  /** The two paths named in the navigation scripts' intent. */
  lemma CurrentPageExamples()
    ensures CurrentPage("/") == "index.html"
    ensures CurrentPage("") == "index.html"
    ensures CurrentPage("/a/b.html") == "b.html"
  {
    LastSegmentAfterSlash("", "");
    assert "" + ['/'] + "" == "/";
    LastSegmentAfterSlash("/a", "b.html");
    assert "/a" + ['/'] + "b.html" == "/a/b.html";
  }
}
