/** The handful of Python `str` operations the source relies on, with their exact edge cases. */
module Text {
  import opened Common


  /** `s.startswith(prefix)` */
  predicate StartsWith(s: string, prefix: string) {
    |prefix| <= |s| && s[..|prefix|] == prefix
  }

  /** `s.endswith(suffix)` */
  predicate EndsWith(s: string, suffix: string) {
    |suffix| <= |s| && s[|s| - |suffix|..] == suffix
  }

  /** Index of the first `c` in `s`, or `|s|` when there is none. */
  function IndexOf(s: string, c: char): (i: nat)
    ensures i <= |s|
    ensures i < |s| ==> s[i] == c
  {
    if s == [] then 0 else if s[0] == c then 0 else 1 + IndexOf(s[1..], c)
  }

  /** No `c` comes before the index IndexOf finds. */
  lemma {:induction false} IndexOfFirst(s: string, c: char, j: nat)
    requires j < IndexOf(s, c)
    ensures s[j] != c
  {
    if j > 0 {
      IndexOfFirst(s[1..], c, j - 1);
    }
  }

  /** `s.rfind(c)`: index of the last `c`, or -1. */
  function RFind(s: string, c: char): (i: int)
    ensures -1 <= i < |s|
    ensures i >= 0 ==> s[i] == c
    ensures forall j :: i < j < |s| ==> s[j] != c
  {
    if s == [] then -1 else if s[|s| - 1] == c then |s| - 1 else RFind(s[..|s| - 1], c)
  }

  /** `s.split(sep)` for a one-character separator: one piece more than there are separators. */
  function Split(s: string, sep: char): (parts: seq<string>)
    ensures |parts| >= 1
    decreases |s|
  {
    var i := IndexOf(s, sep);
    if i == |s| then [s] else [s[..i]] + Split(s[i + 1..], sep)
  }

  /** No piece of a split contains the separator. */
  lemma {:induction false} SplitNoSeparator(s: string, sep: char, k: nat)
    requires k < |Split(s, sep)|
    ensures sep !in Split(s, sep)[k]
    decreases |s|
  {
    var i := IndexOf(s, sep);
    if k == 0 {
      forall j | 0 <= j < |Split(s, sep)[0]| ensures Split(s, sep)[0][j] != sep {
        IndexOfFirst(s, sep, j);
      }
    } else {
      SplitNoSeparator(s[i + 1..], sep, k - 1);
    }
  }

  /** `sep.join(parts)` */
  function Join(parts: seq<string>, sep: string): string {
    if |parts| == 0 then ""
    else if |parts| == 1 then parts[0]
    else parts[0] + sep + Join(parts[1..], sep)
  }

  lemma {:induction false} JoinSnoc(parts: seq<string>, x: string, sep: string)
    requires |parts| >= 1
    ensures Join(parts + [x], sep) == Join(parts, sep) + sep + x
  {
    if |parts| > 1 {
      assert (parts + [x])[1..] == parts[1..] + [x];
      JoinSnoc(parts[1..], x, sep);
    }
  }

  lemma JoinThree(a: string, b: string, c: string)
    ensures Join([a, b, c], "/") == a + "/" + b + "/" + c
  {
    assert [a, b, c][1..] == [b, c];
    assert [b, c][1..] == [c];
    assert Join([c], "/") == c;
    assert Join([b, c], "/") == b + "/" + c;
    assert Join([a, b, c], "/") == a + "/" + (b + "/" + c);
  }

  lemma JoinFour(a: string, b: string, c: string, d: string)
    ensures Join([a, b, c, d], "/") == a + "/" + b + "/" + c + "/" + d
  {
    assert [a, b, c, d][1..] == [b, c, d];
    JoinThree(b, c, d);
    assert Join([a, b, c, d], "/") == a + "/" + (b + "/" + c + "/" + d);
  }

  lemma JoinFive(a: string, b: string, c: string, d: string, e: string)
    ensures Join([a, b, c, d, e], "/") == a + "/" + b + "/" + c + "/" + d + "/" + e
  {
    assert [a, b, c, d, e][1..] == [b, c, d, e];
    JoinFour(b, c, d, e);
    assert Join([a, b, c, d, e], "/") == a + "/" + (b + "/" + c + "/" + d + "/" + e);
  }

  /** Splitting on a character and joining back with it gives the original text. */
  lemma {:induction false} JoinSplit(s: string, sep: char)
    ensures Join(Split(s, sep), [sep]) == s
    decreases |s|
  {
    var i := IndexOf(s, sep);
    if i < |s| {
      var rest := s[i + 1..];
      var parts := Split(rest, sep);
      assert Split(s, sep) == [s[..i]] + parts;
      assert ([s[..i]] + parts)[1..] == parts;
      assert Join(Split(s, sep), [sep]) == s[..i] + [sep] + Join(parts, [sep]);
      JoinSplit(rest, sep);
      assert s == s[..i] + [sep] + rest;
    } else {
      assert Split(s, sep) == [s];
    }
  }

  lemma {:induction false} IndexOfAfter(a: string, sep: char, b: string)
    requires sep !in a
    ensures IndexOf(a + [sep] + b, sep) == |a|
  {
    if a != [] {
      assert (a + [sep] + b)[1..] == a[1..] + [sep] + b;
      assert a[0] in a;
      assert forall x :: x in a[1..] ==> x in a;
      IndexOfAfter(a[1..], sep, b);
    }
  }

  /** Two separator-free pieces joined by the separator split back into the two. */
  lemma SplitTwo(a: string, b: string, sep: char)
    requires sep !in a && sep !in b
    ensures Split(a + [sep] + b, sep) == [a, b]
  {
    IndexOfAfter(a, sep, b);
    var s := a + [sep] + b;
    assert s[..|a|] == a && s[|a| + 1..] == b;
    assert forall j :: 0 <= j < |b| ==> b[j] in b;
  }

  /** Joining separator-free pieces with the separator and splitting again gives the pieces back. */
  lemma {:induction false} SplitJoin(parts: seq<string>, sep: char)
    requires |parts| >= 1
    requires forall k :: 0 <= k < |parts| ==> sep !in parts[k]
    ensures Split(Join(parts, [sep]), sep) == parts
  {
    if |parts| == 1 {
      assert forall j :: 0 <= j < |parts[0]| ==> parts[0][j] in parts[0];
    } else {
      var rest := Join(parts[1..], [sep]);
      assert Join(parts, [sep]) == parts[0] + [sep] + rest;
      IndexOfAfter(parts[0], sep, rest);
      assert (parts[0] + [sep] + rest)[..|parts[0]|] == parts[0];
      assert (parts[0] + [sep] + rest)[|parts[0]| + 1..] == rest;
      SplitJoin(parts[1..], sep);
    }
  }

  /** `s.replace(a, b)` for single characters. */
  function ReplaceChar(s: string, a: char, b: char): (r: string)
    ensures |r| == |s|
    ensures forall i :: 0 <= i < |s| ==> r[i] == (if s[i] == a then b else s[i])
  {
    if s == [] then [] else [if s[0] == a then b else s[0]] + ReplaceChar(s[1..], a, b)
  }

  /** Replacing the separator in separator-free pieces joined by it is joining them by the replacement. */
  lemma {:induction false} ReplaceJoin(parts: seq<string>, a: char, b: char)
    requires forall k :: 0 <= k < |parts| ==> a !in parts[k]
    ensures ReplaceChar(Join(parts, [a]), a, b) == Join(parts, [b])
  {
    if |parts| == 1 {
      assert forall j :: 0 <= j < |parts[0]| ==> parts[0][j] in parts[0];
    } else if |parts| > 1 {
      var p := parts[0];
      var rest := Join(parts[1..], [a]);
      ReplaceJoin(parts[1..], a, b);
      var s := p + [a] + rest;
      assert Join(parts, [a]) == s;
      var r := ReplaceChar(s, a, b);
      var t := p + [b] + Join(parts[1..], [b]);
      assert |r| == |t|;
      forall j | 0 <= j < |r| ensures r[j] == t[j] {
        if j < |p| {
          assert s[j] == p[j] && p[j] in p;
        } else if j > |p| {
          assert s[j] == rest[j - |p| - 1];
          assert ReplaceChar(rest, a, b)[j - |p| - 1] == t[j];
        }
      }
    }
  }

  /** `c.lower()` on ASCII letters; other characters are kept. */
  function LowerChar(c: char): char {
    if 'A' <= c <= 'Z' then (c as int + 32) as char else c
  }

  /**
   * `s.lower()` restricted to ASCII case mapping: each character is lowered on its own. Python's
   * Unicode lowering takes only two non-ASCII characters to ASCII text: the Kelvin sign U+212A
   * becomes `k`, and U+0130 becomes `i` followed by a combining dot. Neither can make a name
   * equal to `emptyfilter` or `nostringtypefilter`, so the filter lookup is the same either way.
   */
  function ToLower(s: string): string {
    seq(|s|, i requires 0 <= i < |s| => LowerChar(s[i]))
  }

  /** Python's `str.isspace()` for one character: the characters `str.strip()` removes. */
  predicate IsSpace(c: char) {
    c == ' ' || ('\t' <= c <= '\r') || ('\U{1C}' <= c <= '\U{1F}') ||
    c == '\U{85}' || c == '\U{A0}' || c == '\U{1680}' || ('\U{2000}' <= c <= '\U{200A}') ||
    c == '\U{2028}' || c == '\U{2029}' || c == '\U{202F}' || c == '\U{205F}' || c == '\U{3000}'
  }

  /** `s.strip() != ""`: some character is not whitespace. */
  predicate HasNonSpace(s: string) {
    exists i :: 0 <= i < |s| && !IsSpace(s[i])
  }

  // ---------------------------------------------------------------------------------------
  // PurePosixPath: the string form of `Path(s)`

  /** A component `Path` keeps: empty components and `.` are dropped, `..` is kept. */
  predicate ProperPart(p: string) {
    p != "" && p != "."
  }

  /** The anchor: exactly two leading slashes stay two; one, or three or more, become one. */
  function PathRoot(s: string): string {
    if StartsWith(s, "//") && !StartsWith(s, "///") then "//"
    else if StartsWith(s, "/") then "/"
    else ""
  }

  /** The components `Path(s).parts` holds after the anchor. */
  function PathParts(s: string): seq<string> {
    Select(ProperPart, Split(s, '/'))
  }

  /** `str(Path(s))` on POSIX: the anchor and the components joined by `/`, or "." when both are empty. */
  function PathStr(s: string): string {
    if PathRoot(s) == "" && PathParts(s) == [] then "." else PathRoot(s) + Join(PathParts(s), "/")
  }

  /** A string that is already the string form of a path. */
  predicate IsPathStr(s: string) {
    PathStr(s) == s
  }

  lemma SplitLeadingSeparator(s: string, sep: char)
    ensures Split([sep] + s, sep) == [""] + Split(s, sep)
  {
    assert IndexOf([sep] + s, sep) == 0;
    assert ([sep] + s)[1..] == s;
  }

  lemma JoinHead(parts: seq<string>, sep: string)
    requires |parts| >= 1 && parts[0] != ""
    ensures Join(parts, sep) != "" && Join(parts, sep)[0] == parts[0][0]
  {
    if |parts| > 1 {
      assert Join(parts, sep) == parts[0] + (sep + Join(parts[1..], sep));
    }
  }

  lemma SelectSkipsHead<T(!new)>(p: T -> bool, x: T, s: seq<T>)
    requires !p(x)
    ensures Select(p, [x] + s) == Select(p, s)
  {
    assert ([x] + s)[1..] == s;
  }

  /** Components joined by `/`, none of them empty or `.`, are a path's string form already. */
  lemma {:induction false} PathStrOfParts(parts: seq<string>)
    requires |parts| >= 1
    requires forall k :: 0 <= k < |parts| ==> ProperPart(parts[k]) && '/' !in parts[k]
    ensures PathRoot(Join(parts, "/")) == ""
    ensures PathParts(Join(parts, "/")) == parts
    ensures PathStr(Join(parts, "/")) == Join(parts, "/")
  {
    var j := Join(parts, "/");
    JoinHead(parts, "/");
    assert parts[0][0] in parts[0];
    SplitJoin(parts, '/');
    assert Split(j, '/') == parts;
    assert forall x :: x in parts ==> ProperPart(x);
    SelectKeepsAll(ProperPart, parts);
  }

  /** Three components in a row: the path's string form, and what splitting it gives back. */
  lemma ThreeComponents(a: string, b: string, c: string)
    requires ProperPart(a) && '/' !in a && ProperPart(b) && '/' !in b && ProperPart(c) && '/' !in c
    ensures PathStr(a + "/" + b + "/" + c) == a + "/" + b + "/" + c
    ensures Split(a + "/" + b + "/" + c, '/') == [a, b, c]
  {
    var parts := [a, b, c];
    assert forall k :: 0 <= k < |parts| ==> ProperPart(parts[k]) && '/' !in parts[k];
    JoinThree(a, b, c);
    PathStrOfParts(parts);
    SplitJoin(parts, '/');
  }

  /** A `.` between components adds no directory. */
  lemma DotComponentDropped(a: string, c: string, d: string)
    requires ProperPart(a) && '/' !in a && ProperPart(c) && '/' !in c && ProperPart(d) && '/' !in d
    ensures PathStr(a + "/" + "." + "/" + c + "/" + d) == a + "/" + c + "/" + d
  {
    var raw := [a, ".", c, d];
    JoinFour(a, ".", c, d);
    assert forall k :: 0 <= k < |raw| ==> '/' !in raw[k];
    assert Select(ProperPart, raw) == [a, c, d] by {
      assert raw == [a] + (["."] + [c, d]);
      SelectSkipsHead(ProperPart, ".", [c, d]);
      SelectKeepsAll(ProperPart, [c, d]);
    }
    PathStrOfJoin(raw);
    JoinThree(a, c, d);
  }

  /** Four components in a row: the path's string form, and what splitting it gives back. */
  lemma FourComponents(a: string, b: string, c: string, d: string)
    requires ProperPart(a) && '/' !in a && ProperPart(b) && '/' !in b
    requires ProperPart(c) && '/' !in c && ProperPart(d) && '/' !in d
    ensures PathStr(a + "/" + b + "/" + c + "/" + d) == a + "/" + b + "/" + c + "/" + d
    ensures Split(a + "/" + b + "/" + c + "/" + d, '/') == [a, b, c, d]
  {
    var parts := [a, b, c, d];
    assert forall k :: 0 <= k < |parts| ==> ProperPart(parts[k]) && '/' !in parts[k];
    JoinFour(a, b, c, d);
    PathStrOfParts(parts);
    SplitJoin(parts, '/');
  }

  lemma PathPartsProper(s: string)
    ensures forall k :: 0 <= k < |PathParts(s)| ==> ProperPart(PathParts(s)[k]) && '/' !in PathParts(s)[k]
  {
    var parts := PathParts(s);
    forall k | 0 <= k < |parts| ensures ProperPart(parts[k]) && '/' !in parts[k] {
      assert parts[k] in Split(s, '/');
      var i :| 0 <= i < |Split(s, '/')| && Split(s, '/')[i] == parts[k];
      SplitNoSeparator(s, '/', i);
    }
  }

  /** The three strings an empty path prints as: ".", "/" and "//". */
  lemma EmptyPathForms()
    ensures PathRoot(".") == "" && PathParts(".") == []
    ensures PathRoot("/") == "/" && PathParts("/") == []
    ensures PathRoot("//") == "//" && PathParts("//") == []
  {
    assert Split(".", '/') == ["."];
    SelectSkipsHead(ProperPart, ".", []);
    EmptyPathParts();
    PathRootByFirst("");
    assert "/" == ['/'] + "" && "//" == ['/', '/'] + "";
    PathPartsAfterSlash("");
    PathPartsAfterSlash("/");
    assert "//" == ['/'] + "/";
  }

  lemma EmptyPathParts()
    ensures PathParts("") == []
  {
    assert Split("", '/') == [""];
    SelectSkipsHead(ProperPart, "", []);
  }

  /** The anchor is read from at most the first three characters. */
  lemma PathRootByFirst(t: string)
    requires t == [] || t[0] != '/'
    ensures PathRoot(t) == ""
    ensures PathRoot(['/'] + t) == "/"
    ensures PathRoot(['/', '/'] + t) == "//"
  {
    var one, two := ['/'] + t, ['/', '/'] + t;
    if t != [] {
      assert one[1] == t[0];
      assert two[2] == t[0];
    }
    assert two[..2] == "//";
  }

  /** A string that starts with no slash and holds the proper components. */
  lemma PartsBelowAnchor(parts: seq<string>)
    requires |parts| >= 1
    requires forall k :: 0 <= k < |parts| ==> ProperPart(parts[k]) && '/' !in parts[k]
    ensures Join(parts, "/") != [] && Join(parts, "/")[0] != '/'
    ensures Split(Join(parts, "/"), '/') == parts
  {
    JoinHead(parts, "/");
    assert parts[0][0] in parts[0];
    SplitJoin(parts, '/');
  }

  /** A leading slash adds no component. */
  lemma PathPartsAfterSlash(t: string)
    ensures PathParts(['/'] + t) == PathParts(t)
  {
    SplitLeadingSeparator(t, '/');
    SelectSkipsHead(ProperPart, "", Split(t, '/'));
  }

  /** An anchor of one slash before proper components. */
  lemma RootedJoin(parts: seq<string>)
    requires |parts| >= 1
    requires forall k :: 0 <= k < |parts| ==> ProperPart(parts[k]) && '/' !in parts[k]
    ensures PathRoot(['/'] + Join(parts, "/")) == "/" && PathParts(['/'] + Join(parts, "/")) == parts
  {
    var j := Join(parts, "/");
    PartsBelowAnchor(parts);
    PathRootByFirst(j);
    PathStrOfParts(parts);
    PathPartsAfterSlash(j);
  }

  /** An anchor of two slashes before proper components. */
  lemma DoubleRootedJoin(parts: seq<string>)
    requires |parts| >= 1
    requires forall k :: 0 <= k < |parts| ==> ProperPart(parts[k]) && '/' !in parts[k]
    ensures PathRoot(['/', '/'] + Join(parts, "/")) == "//" && PathParts(['/', '/'] + Join(parts, "/")) == parts
  {
    var j := Join(parts, "/");
    PartsBelowAnchor(parts);
    PathStrOfParts(parts);
    DoubleSlashBefore(j);
  }

  lemma DoubleSlashBefore(j: string)
    requires j == [] || j[0] != '/'
    ensures PathRoot(['/', '/'] + j) == "//" && PathParts(['/', '/'] + j) == PathParts(j)
  {
    PathRootByFirst(j);
    PathPartsAfterSlash(j);
    PathPartsAfterSlash(['/'] + j);
    assert ['/', '/'] + j == ['/'] + (['/'] + j);
  }

  /** Rewriting a string into its path form keeps the anchor and the components. */
  lemma PathStrKeeps(s: string)
    ensures PathRoot(PathStr(s)) == PathRoot(s)
    ensures PathParts(PathStr(s)) == PathParts(s)
  {
    var root, parts := PathRoot(s), PathParts(s);
    PathPartsProper(s);
    if parts == [] {
      EmptyPathForms();
      assert Join(parts, "/") == "";
      if root == "" {
        assert PathStr(s) == ".";
      } else if root == "/" {
        assert PathStr(s) == "/";
      } else {
        assert PathStr(s) == "//";
      }
    } else {
      var j := Join(parts, "/");
      assert PathStr(s) == root + j;
      if root == "" {
        PathStrOfParts(parts);
        assert root + j == j;
      } else if root == "/" {
        RootedJoin(parts);
      } else {
        assert root == ['/', '/'];
        DoubleRootedJoin(parts);
      }
    }
  }

  /** `str(Path(str(Path(s)))) == str(Path(s))` */
  lemma PathStrIdempotent(s: string)
    ensures IsPathStr(PathStr(s))
  {
    PathStrKeeps(s);
  }

  /**
   * Relative components joined by `/` keep only the components that are neither empty nor `.`:
   * `a//b` and `./a/b` both become `a/b`.
   */
  lemma PathStrOfJoin(parts: seq<string>)
    requires |parts| >= 1 && parts[0] != ""
    requires forall k :: 0 <= k < |parts| ==> '/' !in parts[k]
    requires Select(ProperPart, parts) != []
    ensures PathStr(Join(parts, "/")) == Join(Select(ProperPart, parts), "/")
  {
    var j := Join(parts, "/");
    JoinHead(parts, "/");
    assert parts[0][0] in parts[0];
    PathRootByFirst(j);
    SplitJoin(parts, '/');
    assert PathParts(j) == Select(ProperPart, parts);
  }

  /** An empty component disappears: `pkg//m.py` prints as `pkg/m.py`. */
  lemma PathStrDropsEmpty(x: string, z: string)
    requires ProperPart(x) && ProperPart(z) && '/' !in x && '/' !in z
    ensures PathStr(x + "//" + z) == x + "/" + z
  {
    var a := [x, "", z];
    assert a[1..] == ["", z] && a[1..][1..] == [z];
    assert Join([z], "/") == z;
    assert Join(["", z], "/") == "" + "/" + z;
    assert Join(a, "/") == x + "/" + Join(["", z], "/");
    assert x + "/" + ("" + "/" + z) == x + "//" + z;
    SelectSkipsHead(ProperPart, "", [z]);
    assert [z][1..] == [];
    assert a == [x] + ([""] + [z]);
    assert Select(ProperPart, a) == [x, z];
    assert [x, z][1..] == [z];
    PathStrOfJoin(a);
  }

  /** A `.` component disappears: `./m.py` prints as `m.py`. */
  lemma PathStrDropsDot(z: string)
    requires ProperPart(z) && '/' !in z
    ensures PathStr("./" + z) == z
  {
    var b := [".", z];
    assert b[1..] == [z];
    assert Join(b, "/") == "." + "/" + z;
    assert "." + "/" + z == "./" + z;
    SelectSkipsHead(ProperPart, ".", [z]);
    assert [z][1..] == [];
    assert b == ["."] + [z];
    PathStrOfJoin(b);
  }

  // ---------------------------------------------------------------------------------------
  // UTF-8: the parser's column offsets count the bytes of the line's encoding

  /** The number of bytes UTF-8 spends on one character. */
  function Utf8Width(c: char): (r: nat)
    ensures 1 <= r <= 4
    ensures r == 1 <==> (c as int) < 0x80
  {
    if (c as int) < 0x80 then 1
    else if (c as int) < 0x800 then 2
    else if (c as int) < 0x1_0000 then 3
    else 4
  }

  /** The length in bytes of a string's UTF-8 encoding. */
  function Utf8Len(s: string): (r: nat)
    ensures r >= |s|
  {
    if s == [] then 0 else Utf8Width(s[0]) + Utf8Len(s[1..])
  }

  /** Every character is in the ASCII range, where a character is one byte. */
  predicate IsAscii(s: string) {
    forall i :: 0 <= i < |s| ==> (s[i] as int) < 0x80
  }

  /** A string has as many bytes as characters exactly when it is ASCII. */
  lemma {:induction false} Utf8LenAscii(s: string)
    ensures Utf8Len(s) == |s| <==> IsAscii(s)
  {
    if s != [] {
      Utf8LenAscii(s[1..]);
      assert forall i :: 1 <= i < |s| ==> s[i] == s[1..][i - 1];
    }
  }
}
