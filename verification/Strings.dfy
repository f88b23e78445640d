/** The string operations the sources are built from. Strings are sequences of Unicode characters. */
module Strings {
  import opened Wrappers

  // ---------- Length and order ----------

  /** Sources measure strings in UTF-8. */
  function Utf8Length(s: string): nat {
    if s == "" then 0
    else
      (if s[0] < '\U{80}' then 1 else if s[0] < '\U{800}' then 2 else if s[0] < '\U{10000}' then 3 else 4)
      + Utf8Length(s[1..])
  }

  /** The lengths of UTF-8 in RFC 3629, section 3. */
  lemma Utf8LengthOfOne(c: char)
    ensures Utf8Length([c]) ==
      var code := c as nat;
      if code <= 0x7F then 1 else if code <= 0x7FF then 2 else if code <= 0xFFFF then 3 else 4
  {
    assert [c][1..] == "";
  }

  lemma {:induction false} Utf8LengthAppend(a: string, b: string)
    ensures Utf8Length(a + b) == Utf8Length(a) + Utf8Length(b)
  {
    if a == "" {
      assert a + b == b;
    } else {
      assert (a + b)[1..] == a[1..] + b;
      Utf8LengthAppend(a[1..], b);
    }
  }

  /** The order of ordered maps and of comparisons, character by character. */
  predicate Below(a: string, b: string) {
    b != "" && (a == "" || a[0] < b[0] || (a[0] == b[0] && Below(a[1..], b[1..])))
  }

  lemma BelowTransitive(a: string, b: string, c: string)
    requires Below(a, b) && Below(b, c)
    ensures Below(a, c)
  {
  }

  lemma BelowTotal(a: string, b: string)
    ensures a == b || Below(a, b) || Below(b, a)
    ensures !(Below(a, b) && Below(b, a)) && !Below(a, a)
  {
  }

  /** That is: a proper prefix comes first, and otherwise the first character that differs decides. */
  lemma {:induction false} BelowExactly(a: string, b: string)
    ensures Below(a, b) <==>
      || a < b
      || exists i :: 0 <= i < |a| && i < |b| && a[..i] == b[..i] && a[i] < b[i]
  {
    if a != "" && b != "" && a[0] == b[0] {
      BelowExactly(a[1..], b[1..]);
      BelowDropped(a, b);
    } else if a != "" && b != "" && a[0] < b[0] {
      assert a[..0] == b[..0];
    }
  }

  lemma {:induction false} BelowDropped(a: string, b: string)
    requires a != "" && b != "" && a[0] == b[0]
    ensures a < b <==> a[1..] < b[1..]
    ensures (exists i :: 0 <= i < |a| && i < |b| && a[..i] == b[..i] && a[i] < b[i]) <==>
      (exists i :: 0 <= i < |a[1..]| && i < |b[1..]| && a[1..][..i] == b[1..][..i] && a[1..][i] < b[1..][i])
  {
    if i :| 0 <= i < |a| && i < |b| && a[..i] == b[..i] && a[i] < b[i] {
      assert i > 0 && a[1..][..i - 1] == a[..i][1..] && b[1..][..i - 1] == b[..i][1..];
      assert a[1..][i - 1] < b[1..][i - 1];
    }
    if i :| 0 <= i < |a[1..]| && i < |b[1..]| && a[1..][..i] == b[1..][..i] && a[1..][i] < b[1..][i] {
      assert a[..i + 1] == [a[0]] + a[1..][..i] && b[..i + 1] == [b[0]] + b[1..][..i];
      assert a[i + 1] < b[i + 1];
    }
    assert a == [a[0]] + a[1..] && b == [b[0]] + b[1..];
    assert a[1..] <= b[1..] ==> a <= b;
    assert a <= b ==> a == b[..|a|] && a[1..] == b[1..][..|a| - 1];
  }

  // ---------- Separators and lines ----------

  function IndexOf(s: string, c: char): (i: nat)
    ensures i <= |s| && c !in s[..i] && (i < |s| ==> s[i] == c)
  {
    if s == "" || s[0] == c then 0
    else
      assert forall i :: 1 <= i <= |s| ==> s[..i] == [s[0]] + s[1..][..i - 1];
      1 + IndexOf(s[1..], c)
  }

  function Split(s: string, separator: char): (parts: seq<string>)
    ensures parts != []
    decreases |s|
  {
    var i := IndexOf(s, separator);
    if i == |s| then [s] else [s[..i]] + Split(s[i + 1..], separator)
  }

  lemma SeparatorAt(head: string, c: char, tail: string)
    requires c !in head
    ensures IndexOf(head + [c] + tail, c) == |head|
  {
    if head != "" {
      SeparatorAt(head[1..], c, tail);
      assert (head + [c] + tail)[1..] == head[1..] + [c] + tail;
    }
  }

  lemma SplitAt(head: string, c: char, tail: string)
    requires c !in head
    ensures Split(head + [c] + tail, c) == [head] + Split(tail, c)
  {
    var s := head + [c] + tail;
    SeparatorAt(head, c, tail);
    assert s[..|head|] == head && s[|head| + 1..] == tail;
  }

  function StripCarriageReturn(line: string): string {
    if line != "" && line[|line| - 1] == '\r' then line[..|line| - 1] else line
  }

  /** Lines end at a line feed, with or without a carriage return before it. */
  function Lines(document: string): seq<string>
    decreases |document|
  {
    var i := IndexOf(document, '\n');
    if document == "" then []
    else if i == |document| then [document]
    else [StripCarriageReturn(document[..i])] + Lines(document[i + 1..])
  }

  /** A carriage return before the line feed belongs to the line's end, one elsewhere does not. */
  lemma {:induction false} LinesWithReturns(line: string, rest: string)
    requires '\n' !in line && (line == "" || line[|line| - 1] != '\r')
    ensures Lines(line + "\r\n" + rest) == [line] + Lines(rest) && Lines(line + "\n" + rest) == [line] + Lines(rest)
    ensures line != "" ==> Lines(line) == [line]
    ensures Lines("") == []
  {
    var returned := line + "\r";
    assert line + "\r\n" + rest == returned + "\n" + rest;
    assert returned[..|line|] == line;
    OneMoreLine(returned, rest);
    OneMoreLine(line, rest);
    assert '\n' !in line ==> IndexOf(line, '\n') == |line|;
  }

  function Unlines(lines: seq<string>): string {
    if lines == [] then "" else lines[0] + "\n" + Unlines(lines[1..])
  }

  lemma {:induction false} LinesOfUnlines(lines: seq<string>)
    requires forall line :: line in lines ==> '\n' !in line && StripCarriageReturn(line) == line
    ensures Lines(Unlines(lines)) == lines
  {
    if lines != [] {
      LinesOfUnlines(lines[1..]);
      OneMoreLine(lines[0], Unlines(lines[1..]));
      assert lines == [lines[0]] + lines[1..];
    }
  }

  lemma OneMoreLine(line: string, rest: string)
    requires '\n' !in line
    ensures Lines(line + "\n" + rest) == [StripCarriageReturn(line)] + Lines(rest)
  {
    var s := line + "\n" + rest;
    SeparatorAt(line, '\n', rest);
    assert s[..|line|] == line && s[|line| + 1..] == rest;
  }

  lemma UnlinesAppend(left: seq<string>, right: seq<string>)
    ensures Unlines(left + right) == Unlines(left) + Unlines(right)
  {
    if left == [] {
      assert left + right == right;
    } else {
      assert (left + right)[1..] == left[1..] + right;
      UnlinesAppend(left[1..], right);
    }
  }

  // ---------- Trimming ----------

  /** Unicode White_Space. */
  predicate IsSpace(c: char) {
    || '\U{9}' <= c <= '\U{D}' || c == ' ' || c == '\U{85}' || c == '\U{A0}' || c == '\U{1680}'
    || '\U{2000}' <= c <= '\U{200A}' || c == '\U{2028}' || c == '\U{2029}' || c == '\U{202F}'
    || c == '\U{205F}' || c == '\U{3000}'
  }

  function TrimStart(s: string): string {
    if s != "" && IsSpace(s[0]) then TrimStart(s[1..]) else s
  }

  function TrimEnd(s: string): string {
    if s != "" && IsSpace(s[|s| - 1]) then TrimEnd(s[..|s| - 1]) else s
  }

  function Trim(s: string): string {
    TrimEnd(TrimStart(s))
  }

  /** Trimming drops blanks from both ends and nothing else. */
  lemma {:induction false} TrimExactly(s: string) returns (left: string, right: string)
    ensures s == left + Trim(s) + right
    ensures (forall c :: c in left ==> IsSpace(c)) && forall c :: c in right ==> IsSpace(c)
    ensures Trim(s) == "" || Tight(Trim(s))
  {
    left := TrimmedStart(s);
    right := TrimmedEnd(TrimStart(s));
    assert TrimStart(s) != "" && Trim(s) != "" ==> Trim(s)[0] == TrimStart(s)[0];
  }

  lemma {:induction false} TrimmedStart(s: string) returns (left: string)
    ensures s == left + TrimStart(s) && (forall c :: c in left ==> IsSpace(c))
    ensures TrimStart(s) == "" || !IsSpace(TrimStart(s)[0])
  {
    left := "";
    if s != "" && IsSpace(s[0]) {
      var more := TrimmedStart(s[1..]);
      left := [s[0]] + more;
    }
  }

  lemma {:induction false} TrimmedEnd(s: string) returns (right: string)
    ensures s == TrimEnd(s) + right && (forall c :: c in right ==> IsSpace(c))
    ensures TrimEnd(s) == "" || !IsSpace(TrimEnd(s)[|TrimEnd(s)| - 1])
  {
    right := "";
    if s != "" && IsSpace(s[|s| - 1]) {
      var more := TrimmedEnd(s[..|s| - 1]);
      right := more + [s[|s| - 1]];
    }
  }

  /** Blanks are those of Unicode, of which these are the ones in ASCII. */
  lemma Blanks(c: char)
    ensures c < '\U{80}' ==> (IsSpace(c) <==> c in {' ', '\t', '\n', '\r', '\U{B}', '\U{C}'})
    ensures IsSpace('\U{A0}') && IsSpace('\U{2003}') && IsSpace('\U{3000}') && !IsSpace('\U{200B}')
  {
  }

  predicate Tight(s: string) {
    s != "" && !IsSpace(s[0]) && !IsSpace(s[|s| - 1])
  }

  lemma TrimTight(s: string)
    requires Tight(s)
    ensures Trim(s) == s
  {
  }

  function Spaces(n: nat): string {
    seq(n, _ => ' ')
  }

  lemma TrimIndented(n: nat, s: string)
    requires Tight(s)
    ensures Trim(Spaces(n) + s) == s
  {
    TrimStartIndented(n, s);
  }

  lemma TrimStartIndented(n: nat, s: string)
    requires Tight(s)
    ensures TrimStart(Spaces(n) + s) == s
  {
    if n == 0 {
      assert Spaces(n) + s == s;
    } else {
      assert (Spaces(n) + s)[1..] == Spaces(n - 1) + s;
      TrimStartIndented(n - 1, s);
    }
  }

  /** How many spaces or tabs a line starts with. */
  function Leading(s: string): (n: nat)
    ensures n <= |s|
  {
    if s != "" && (s[0] == ' ' || s[0] == '\t') then 1 + Leading(s[1..]) else 0
  }

  lemma LeadingIndented(n: nat, s: string)
    requires Tight(s)
    ensures Leading(Spaces(n) + s) == n && (Spaces(n) + s)[..n] == Spaces(n)
  {
    if n == 0 {
      assert Spaces(n) + s == s;
    } else {
      assert (Spaces(n) + s)[1..] == Spaces(n - 1) + s;
      LeadingIndented(n - 1, s);
    }
  }

  // ---------- Prefixes and separators ----------

  predicate HasPrefix(s: string, prefix: string) {
    |prefix| <= |s| && s[..|prefix|] == prefix
  }

  predicate HasSuffix(s: string, suffix: string) {
    |suffix| <= |s| && s[|s| - |suffix|..] == suffix
  }

  /** Replaces `''` by `'`, left to right. */
  function Unquote(s: string): string {
    if |s| < 2 then s
    else if s[..2] == "''" then "'" + Unquote(s[2..])
    else [s[0]] + Unquote(s[1..])
  }

  /** The part before the first ` #`. */
  function BeforeComment(s: string): string {
    if |s| < 2 then s else if s[..2] == " #" then "" else [s[0]] + BeforeComment(s[1..])
  }

  function Replace(s: string, from: char, to: char): (t: string)
    ensures |t| == |s| && forall i :: 0 <= i < |s| ==> t[i] == if s[i] == from then to else s[i]
  {
    seq(|s|, i requires 0 <= i < |s| => if s[i] == from then to else s[i])
  }

  // ---------- JSON strings (section 7 of RFC 8259) ----------

  function HexDigit(n: nat): char
    requires n < 16
  {
    "0123456789abcdef"[n]
  }

  function HexValue(c: char): Option<nat> {
    if '0' <= c <= '9' then Some(c as nat - '0' as nat)
    else if 'a' <= c <= 'f' then Some(c as nat - 'a' as nat + 10)
    else if 'A' <= c <= 'F' then Some(c as nat - 'A' as nat + 10)
    else None
  }

  function Escape(c: char): string {
    if c == '"' then "\\\""
    else if c == '\\' then "\\\\"
    else if c == '\U{8}' then "\\b"
    else if c == '\t' then "\\t"
    else if c == '\n' then "\\n"
    else if c == '\U{C}' then "\\f"
    else if c == '\r' then "\\r"
    else if c < ' ' then "\\u00" + [HexDigit(c as nat / 16), HexDigit(c as nat % 16)]
    else [c]
  }

  function EscapeAll(s: string): string {
    if s == "" then "" else Escape(s[0]) + EscapeAll(s[1..])
  }

  function JsonString(s: string): string {
    "\"" + EscapeAll(s) + "\""
  }

  function HexQuad(s: string): (code: Option<nat>)
    ensures code.Some? ==> code.value < 0x10000
  {
    if |s| < 4 then None
    else
      var (a, b, c, d) := (HexValue(s[0]), HexValue(s[1]), HexValue(s[2]), HexValue(s[3]));
      if a.Some? && b.Some? && c.Some? && d.Some? then
        Some(a.value * 0x1000 + b.value * 0x100 + c.value * 0x10 + d.value)
      else None
  }

  function SimpleEscape(c: char): Option<char> {
    match c
    case '"' => Some('"')
    case '\\' => Some('\\')
    case '/' => Some('/')
    case 'b' => Some('\U{8}')
    case 'f' => Some('\U{C}')
    case 'n' => Some('\n')
    case 'r' => Some('\r')
    case 't' => Some('\t')
    case _ => None
  }

  function Prepend(c: char, rest: Option<string>): Option<string> {
    if rest.Some? then Some([c] + rest.value) else None
  }

  predicate JsonSpaces(s: string) {
    forall c :: c in s ==> c == ' ' || c == '\t' || c == '\n' || c == '\r'
  }

  /** What stands between an opened quote and the end of the input. */
  function Unescape(s: string): Option<string>
    decreases |s|
  {
    if s == "" then None
    else if s[0] == '"' then (if JsonSpaces(s[1..]) then Some("") else None)
    else if s[0] < ' ' then None
    else if s[0] != '\\' then Prepend(s[0], Unescape(s[1..]))
    else if |s| < 2 then None
    else if SimpleEscape(s[1]).Some? then Prepend(SimpleEscape(s[1]).value, Unescape(s[2..]))
    else if s[1] != 'u' || HexQuad(s[2..]).None? then None
    else
      var high := HexQuad(s[2..]).value;
      if high < 0xD800 || high >= 0xE000 then Prepend(high as char, Unescape(s[6..]))
      else if high >= 0xDC00 || |s| < 8 || s[6..8] != "\\u" || HexQuad(s[8..]).None? then None
      else
        var low := HexQuad(s[8..]).value;
        if low < 0xDC00 || low >= 0xE000 then None
        else Prepend((0x10000 + (high - 0xD800) * 0x400 + (low - 0xDC00)) as char, Unescape(s[12..]))
  }

  function ParseJsonString(s: string): Option<string> {
    if s == "" || s[0] != '"' then None else Unescape(s[1..])
  }

  lemma {:induction false} UnescapeOne(c: char, rest: string)
    ensures Unescape(Escape(c) + rest) == Prepend(c, Unescape(rest))
  {
    var s := Escape(c) + rest;
    if |Escape(c)| == 1 {
      assert s[1..] == rest;
    } else if |Escape(c)| == 2 {
      assert s[2..] == rest;
    } else {
      UnescapeControl(c, rest);
    }
  }

  lemma HexRoundTrip(n: nat)
    requires n < 16
    ensures HexValue(HexDigit(n)) == Some(n)
  {
  }

  lemma UnescapeControl(c: char, rest: string)
    requires c < ' '
    ensures
      var s := "\\u00" + [HexDigit(c as nat / 16), HexDigit(c as nat % 16)] + rest;
      Unescape(s) == Prepend(c, Unescape(rest))
  {
    var n := c as nat;
    var s := "\\u00" + [HexDigit(n / 16), HexDigit(n % 16)] + rest;
    HexRoundTrip(n / 16);
    HexRoundTrip(n % 16);
    assert s[2..][0] == '0' && s[2..][1] == '0' && s[2..][2] == HexDigit(n / 16) && s[2..][3] == HexDigit(n % 16);
    assert HexQuad(s[2..]) == Some(n);
    assert s[6..] == rest;
  }

  /** Printing and parsing JSON strings are inverse. */
  lemma {:induction false} JsonRoundTrip(s: string)
    ensures ParseJsonString(JsonString(s)) == Some(s)
  {
    assert JsonString(s)[1..] == EscapeAll(s) + "\"";
    UnescapeAll(s);
  }

  lemma {:induction false} UnescapeAll(s: string)
    ensures Unescape(EscapeAll(s) + "\"") == Some(s)
  {
    if s == "" {
      assert EscapeAll(s) + "\"" == "\"";
    } else {
      UnescapeOne(s[0], EscapeAll(s[1..]) + "\"");
      assert Escape(s[0]) + (EscapeAll(s[1..]) + "\"") == EscapeAll(s) + "\"";
      UnescapeAll(s[1..]);
      assert s == [s[0]] + s[1..];
    }
  }

  /** Section 7 of RFC 8259 by example: what has a short form, a control character without one, and the rest. */
  lemma Escapes(c: char)
    ensures Escape('"') == ['\\', '"'] && Escape('\\') == ['\\', '\\'] && Escape('\n') == ['\\', 'n']
    ensures Escape('\r') == ['\\', 'r'] && Escape('\t') == ['\\', 't'] && Escape('\U{8}') == ['\\', 'b']
    ensures Escape('\U{C}') == ['\\', 'f'] && Escape('\U{1B}') == ['\\', 'u', '0', '0', '1', 'b']
    ensures c >= ' ' && c != '"' && c != '\\' ==> Escape(c) == [c]
  {
  }

  /** Two escapes make one character beyond the basic plane, and half of one is refused. */
  lemma {:induction false} SurrogatesByExample()
    ensures Unescape("\\ud83d" + "\\ude00" + "\"") == Some("\U{1F600}")
    ensures Unescape("\\ud83d" + "\"") == None && Unescape("\\ude00" + "\"") == None
    ensures Unescape("\\x" + "\"") == None
  {
    var s := "\\ud83d" + "\\ude00" + "\"";
    assert HexQuad(s[2..]) == Some(0xD83D) && s[6..8] == "\\u";
    assert HexQuad(s[8..]) == Some(0xDE00) && s[12..] == "\"";
    assert "\""[1..] == "" && Unescape("\"") == Some("");
    assert (0x10000 + (0xD83D - 0xD800) * 0x400 + (0xDE00 - 0xDC00)) as char == '\U{1F600}';
    assert Unescape(s[12..]) == Some("") && s[0] == '\\' && s[1] == 'u';
    assert ['\U{1F600}'] + "" == "\U{1F600}";
    var t := "\\ud83d" + "\"";
    assert HexQuad(t[2..]) == Some(0xD83D) && |t| == 7;
    var u := "\\ude00" + "\"";
    assert HexQuad(u[2..]) == Some(0xDE00);
    var x := "\\x" + "\"";
    assert x[1] == 'x';
  }

  lemma EscapedIsOneLine(s: string)
    ensures '\n' !in EscapeAll(s)
  {
    if s != "" {
      EscapedIsOneLine(s[1..]);
    }
  }
}
