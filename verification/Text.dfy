/** Strings as the browser code uses them: search, splitting, trimming and joining. */
module Text {
  datatype Option<+T> = None | Some(value: T)

  /** `a || b` on texts. */
  function Or(a: string, b: string): (r: string) {
    if a != "" then a else b
  }

  /** `s.indexOf(pattern)`: where the first occurrence starts, if there is one. */
  function IndexOf(pattern: string, s: string): (r: Option<nat>)
    ensures r.Some? ==> r.value + |pattern| <= |s|
  {
    if pattern <= s then Some(0)
    else if s == "" then None
    else
      match IndexOf(pattern, s[1..])
      case None => None
      case Some(i) => Some(i + 1)
  }

  /** An occurrence that was found stays the first one when the text grows. */
  lemma {:induction false} IndexOfGrows(pattern: string, a: string, b: string)
    requires IndexOf(pattern, a).Some?
    ensures IndexOf(pattern, a + b) == IndexOf(pattern, a)
  {
    if !(pattern <= a) {
      DropAppend(a, b, 1);
      IndexOfGrows(pattern, a[1..], b);
    }
  }

  lemma Assoc<T>(a: seq<T>, b: seq<T>, c: seq<T>)
    ensures (a + b) + c == a + (b + c)
  {}

  lemma SameSeq<T>(s: seq<T>, t: seq<T>)
    requires |s| == |t| && forall i | 0 <= i < |s| :: s[i] == t[i]
    ensures s == t
  {}

  lemma DropAppend(a: string, b: string, i: nat)
    requires i <= |a|
    ensures (a + b)[i..] == a[i..] + b
  {}

  /** Cutting a text behind its first character. */
  lemma CutStepped(s: string, i: nat)
    requires i < |s|
    ensures [s[0]] + s[1..][..i] == s[..i + 1]
    ensures s[1..][i..] == s[i + 1..]
  {}

  /** `s.split(separator)`: cut at the leftmost, non-overlapping occurrences. */
  function Split(separator: string, s: string): (parts: seq<string>)
    requires separator != ""
    ensures parts != []
    decreases |s|
  {
    match IndexOf(separator, s)
    case None => [s]
    case Some(i) => [s[..i]] + Split(separator, s[i + |separator|..])
  }

  /** `parts.join("")`. */
  function Join(parts: seq<string>): (s: string) {
    if parts == [] then "" else parts[0] + Join(parts[1..])
  }

  lemma {:induction false} JoinAppend(a: seq<string>, b: seq<string>)
    ensures Join(a + b) == Join(a) + Join(b)
  {
    if a == [] {
      assert a + b == b;
    } else {
      assert (a + b)[1..] == a[1..] + b;
      JoinAppend(a[1..], b);
    }
  }

  /** White space and line terminators of ECMAScript, the characters `trim` removes. */
  predicate IsSpace(c: char) {
    var code := c as int;
    9 <= code <= 13 || code == 0x20 || code == 0xA0 || code == 0x1680 || 0x2000 <= code <= 0x200A ||
    code == 0x2028 || code == 0x2029 || code == 0x202F || code == 0x205F || code == 0x3000 || code == 0xFEFF
  }

  /** Blanks, tabs, line ends and the wide blank are white space; printed ASCII, Chinese characters and full-width signs are not. */
  lemma WhiteSpace(c: char)
    ensures c == ' ' || c == '\t' || c == '\n' || c == '\r' || c == 0x3000 as char ==> IsSpace(c)
    ensures 0x21 <= c as int <= 0x7E || 0x3001 <= c as int <= 0x9FFF || 0xFF01 <= c as int <= 0xFF5E ==> !IsSpace(c)
  {}

  function TrimStart(s: string): (t: string) {
    if s != "" && IsSpace(s[0]) then TrimStart(s[1..]) else s
  }

  function TrimEnd(s: string): (t: string) {
    if s != "" && IsSpace(s[|s| - 1]) then TrimEnd(s[..|s| - 1]) else s
  }

  function Trim(s: string): (t: string) {
    TrimEnd(TrimStart(s))
  }

  /** `trim` leaves nothing exactly of the strings made of white space only. */
  lemma {:induction false} TrimIsEmpty(s: string)
    ensures Trim(s) == "" <==> forall i | 0 <= i < |s| :: IsSpace(s[i])
  {
    if s != "" {
      if IsSpace(s[0]) {
        TrimIsEmpty(s[1..]);
        assert forall i | 0 < i < |s| :: s[i] == s[1..][i - 1];
      } else {
        TrimEndKeeps(s, 0);
      }
    }
  }

  lemma {:induction false} TrimEndKeeps(s: string, i: nat)
    requires i < |s| && !IsSpace(s[i])
    ensures i < |TrimEnd(s)|
  {
    if IsSpace(s[|s| - 1]) {
      TrimEndKeeps(s[..|s| - 1], i);
    }
  }

  /** Behind a text without its first character, a pattern is found at once. */
  lemma {:induction false} FirstBehindPlain(pattern: string, plain: string, rest: string)
    requires pattern != "" && pattern <= rest && pattern[0] !in plain
    ensures IndexOf(pattern, plain + rest) == Some(|plain|)
  {
    if plain == "" {
      assert plain + rest == rest;
    } else {
      assert (plain + rest)[0] == plain[0];
      DropAppend(plain, rest, 1);
      FirstBehindPlain(pattern, plain[1..], rest);
    }
  }

  // ---------- What splitting and trimming mean ----------

  /** `parts.join(separator)`. */
  function JoinWith(separator: string, parts: seq<string>): (s: string)
    requires parts != []
  {
    if |parts| == 1 then parts[0] else parts[0] + (separator + JoinWith(separator, parts[1..]))
  }

  lemma {:induction false} FoundIsThere(pattern: string, s: string)
    requires IndexOf(pattern, s).Some?
    ensures var k := IndexOf(pattern, s).value; s[k..k + |pattern|] == pattern
  {
    if !(pattern <= s) {
      FoundIsThere(pattern, s[1..]);
      var k := IndexOf(pattern, s[1..]).value;
      assert s[1..][k..k + |pattern|] == s[k + 1..k + 1 + |pattern|];
    }
  }

  lemma {:induction false} CutOut(pattern: string, s: string)
    requires IndexOf(pattern, s).Some?
    ensures var i := IndexOf(pattern, s).value; s == s[..i] + (pattern + s[i + |pattern|..])
  {
    if !(pattern <= s) {
      var i := IndexOf(pattern, s[1..]).value;
      CutOut(pattern, s[1..]);
      CutStepped(s, i);
      CutStepped(s, i + |pattern|);
      assert s == [s[0]] + s[1..];
    }
  }

  lemma RejoinStep(separator: string, part: string, parts: seq<string>, rest: string)
    requires parts != [] && JoinWith(separator, parts) == rest
    ensures JoinWith(separator, [part] + parts) == part + (separator + rest)
  {
    assert ([part] + parts)[1..] == parts;
  }

  lemma CutJoins(separator: string, s: string, i: nat)
    requires separator != "" && IndexOf(separator, s) == Some(i)
    requires JoinWith(separator, Split(separator, s[i + |separator|..])) == s[i + |separator|..]
    ensures JoinWith(separator, Split(separator, s)) == s
  {
    var rest := s[i + |separator|..];
    var parts := Split(separator, rest);
    assert Split(separator, s) == [s[..i]] + parts;
    RejoinStep(separator, s[..i], parts, rest);
    CutOut(separator, s);
  }

  /** Put together again, the parts give the text, */
  lemma {:induction false} SplitJoins(separator: string, s: string)
    requires separator != ""
    ensures JoinWith(separator, Split(separator, s)) == s
    decreases |s|
  {
    match IndexOf(separator, s)
    case None =>
    case Some(i) =>
      SplitJoins(separator, s[i + |separator|..]);
      CutJoins(separator, s, i);
  }

  lemma {:induction false} PartBeforeIsFree(separator: string, s: string, i: nat)
    requires separator != "" && IndexOf(separator, s) == Some(i)
    ensures IndexOf(separator, s[..i]).None?
  {
    assert s[..i] + s[i..] == s;
    if IndexOf(separator, s[..i]).Some? {
      IndexOfGrows(separator, s[..i], s[i..]);
    }
  }

  predicate NoneContains(separator: string, parts: seq<string>) {
    forall i | 0 <= i < |parts| :: IndexOf(separator, parts[i]).None?
  }

  /** ... and none of them contains the separator. */
  lemma {:induction false} PartsAreFree(separator: string, s: string)
    requires separator != ""
    ensures NoneContains(separator, Split(separator, s))
    decreases |s|
  {
    match IndexOf(separator, s)
    case None =>
    case Some(i) =>
      PartBeforeIsFree(separator, s, i);
      PartsAreFree(separator, s[i + |separator|..]);
  }

  predicate AllSpace(s: string) {
    forall i | 0 <= i < |s| :: IsSpace(s[i])
  }

  lemma {:induction false} TrimStartCuts(s: string) returns (front: string)
    ensures s == front + TrimStart(s) && AllSpace(front)
    ensures TrimStart(s) != "" ==> !IsSpace(TrimStart(s)[0])
  {
    front := "";
    if s != "" && IsSpace(s[0]) {
      var rest := TrimStartCuts(s[1..]);
      front := [s[0]] + rest;
      assert s == [s[0]] + s[1..];
    }
  }

  lemma {:induction false} TrimEndCuts(s: string) returns (back: string)
    ensures s == TrimEnd(s) + back && AllSpace(back)
    ensures TrimEnd(s) != "" ==> !IsSpace(TrimEnd(s)[|TrimEnd(s)| - 1]) && TrimEnd(s)[0] == s[0]
  {
    back := "";
    if s != "" && IsSpace(s[|s| - 1]) {
      var rest := TrimEndCuts(s[..|s| - 1]);
      back := rest + [s[|s| - 1]];
      assert s == s[..|s| - 1] + [s[|s| - 1]];
    }
  }

  /** Trimming takes white space away at both ends, and all of it. */
  lemma TrimCuts(s: string) returns (front: string, back: string)
    ensures s == front + Trim(s) + back && AllSpace(front) && AllSpace(back)
    ensures Trim(s) != "" ==> !IsSpace(Trim(s)[0]) && !IsSpace(Trim(s)[|Trim(s)| - 1])
  {
    front := TrimStartCuts(s);
    back := TrimEndCuts(TrimStart(s));
  }

  /** Parts without the separator come back from their joined text; this is for separators of one character. */
  lemma {:induction false} SplitOfJoined(separator: string, parts: seq<string>)
    requires |separator| == 1 && parts != [] && forall i | 0 <= i < |parts| :: separator[0] !in parts[i]
    ensures Split(separator, JoinWith(separator, parts)) == parts
  {
    if |parts| == 1 {
      NotFound(separator, parts[0]);
    } else {
      var rest := JoinWith(separator, parts[1..]);
      SplitOfJoined(separator, parts[1..]);
      FirstBehindPlain(separator, parts[0], separator + rest);
      assert (parts[0] + (separator + rest))[..|parts[0]|] == parts[0];
      assert (parts[0] + (separator + rest))[|parts[0]| + 1..] == rest;
      assert parts == [parts[0]] + parts[1..];
    }
  }

  lemma {:induction false} NotFound(pattern: string, s: string)
    requires pattern != "" && pattern[0] !in s
    ensures IndexOf(pattern, s).None?
  {
    if s != "" {
      NotFound(pattern, s[1..]);
    }
  }

  /** A text without white space at its ends is its own trimmed form. */
  lemma TrimKeeps(s: string)
    requires s == "" || (!IsSpace(s[0]) && !IsSpace(s[|s| - 1]))
    ensures Trim(s) == s
  {}

  lemma TrimHas(s: string, c: char)
    requires c in s && !IsSpace(c)
    ensures c in Trim(s)
  {
    var front, back := TrimCuts(s);
  }

  lemma {:induction false} CharsOfJoined(separator: string, parts: seq<string>, c: char)
    requires parts != [] && c in JoinWith(separator, parts) && c !in separator
    ensures exists i :: 0 <= i < |parts| && c in parts[i]
  {
    if |parts| > 1 && c !in parts[0] {
      CharsOfJoined(separator, parts[1..], c);
      var i :| 0 <= i < |parts| - 1 && c in parts[1..][i];
      assert c in parts[i + 1];
    }
  }
}
