/** Saving and loading the portal's `.env` file. A text is a sequence of Unicode scalar values. */
module EnvFile {
  import opened Records

  datatype Setting = Setting(key: string, value: string)

  // ----- characters -----

  /** What `trim` removes: white space and line terminators. */
  predicate IsSpace(c: char) {
    c in {'\t', '\n', '\r', ' '} || c as int in
      {0x0B, 0x0C, 0xA0, 0x1680, 0x2000, 0x2001, 0x2002, 0x2003, 0x2004, 0x2005, 0x2006, 0x2007, 0x2008, 0x2009,
       0x200A, 0x2028, 0x2029, 0x202F, 0x205F, 0x3000, 0xFEFF}
  }

  function TrimStart(s: string): (t: string)
    ensures t == [] || !IsSpace(t[0])
    ensures s == [] || !IsSpace(s[0]) ==> t == s
    ensures forall c :: c in t ==> c in s
  {
    if s != [] && IsSpace(s[0]) then TrimStart(s[1..]) else s
  }

  function TrimEnd(s: string): (t: string)
    ensures t == [] || !IsSpace(t[|t| - 1])
    ensures s == [] || !IsSpace(s[|s| - 1]) ==> t == s
    ensures t <= s
  {
    if s != [] && IsSpace(s[|s| - 1]) then TrimEnd(s[..|s| - 1]) else s
  }

  function Trim(s: string): (t: string)
    ensures t == [] || (!IsSpace(t[0]) && !IsSpace(t[|t| - 1]))
    ensures s == [] || (!IsSpace(s[0]) && !IsSpace(s[|s| - 1])) ==> t == s
    ensures forall c :: c in t ==> c in s
  {
    var u := TrimStart(s);
    var t := TrimEnd(u);
    assert t != [] ==> t[0] == u[0];
    assert forall c :: c in t ==> c in u;
    t
  }

  /** A single character is trimmed away exactly when it is white space or a line terminator of the language. */
  lemma TrimmedAway(c: char)
    ensures var n := c as int;
            Trim([c]) == [] <==>
              9 <= n <= 13 || n == 32 || n == 160 || n == 5760 || 8192 <= n <= 8202 || n == 8232 || n == 8233
              || n == 8239 || n == 8287 || n == 12288 || n == 65279
  {
    assert TrimStart([c]) == if IsSpace(c) then [] else [c];
  }

  // ----- JSON.stringify of a string -----

  function HexDigit(n: nat): char
    requires n < 16
  {
    "0123456789abcdef"[n]
  }

  /** How a string literal writes one character (section 7 of RFC 8259). */
  function EscapeChar(c: char): (e: string)
    ensures e != []
  {
    if c == '"' then ['\\', '"']
    else if c == '\\' then ['\\', '\\']
    else if c as int >= 0x20 then [c]
    else if c as int == 0x08 then ['\\', 'b']
    else if c == '\t' then ['\\', 't']
    else if c == '\n' then ['\\', 'n']
    else if c as int == 0x0C then ['\\', 'f']
    else if c == '\r' then ['\\', 'r']
    else ['\\', 'u', '0', '0', HexDigit(c as int / 16), HexDigit(c as int % 16)]
  }

  function Escape(s: string): string {
    if s == [] then [] else EscapeChar(s[0]) + Escape(s[1..])
  }

  function Stringify(s: string): string {
    ['"'] + Escape(s) + ['"']
  }

  ghost function HexValue(c: char): Option<nat> {
    if '0' <= c <= '9' then Some(c as nat - 0x30)
    else if 'a' <= c <= 'f' then Some(c as nat - 0x61 + 10)
    else if 'A' <= c <= 'F' then Some(c as nat - 0x41 + 10)
    else None
  }

  /** The character that a four-digit escape stands for, unless it is a surrogate. */
  ghost function HexChar(digits: string): Option<char>
    requires |digits| == 4
  {
    match (HexValue(digits[0]), HexValue(digits[1]), HexValue(digits[2]), HexValue(digits[3]))
    case (Some(a), Some(b), Some(c), Some(d)) =>
      var code := 4096 * a + 256 * b + 16 * c + d;
      if code < 0xD800 || 0xE000 <= code < 0x10000 then Some(code as char) else None
    case _ => None
  }

  ghost function Before(c: char, rest: Option<string>): Option<string> {
    match rest
    case Some(s) => Some([c] + s)
    case None => None
  }

  /** Reading the rest of a string literal behind its opening quote (section 7 of RFC 8259). */
  ghost function ReadChars(s: string): Option<string> {
    if s == [] then None
    else if s[0] == '"' then if |s| == 1 then Some([]) else None
    else if s[0] as int < 0x20 then None
    else if s[0] != '\\' then Before(s[0], ReadChars(s[1..]))
    else if |s| < 2 then None
    else
      match s[1]
      case '"' => Before('"', ReadChars(s[2..]))
      case '\\' => Before('\\', ReadChars(s[2..]))
      case '/' => Before('/', ReadChars(s[2..]))
      case 'b' => Before(8 as char, ReadChars(s[2..]))
      case 'f' => Before(12 as char, ReadChars(s[2..]))
      case 'n' => Before('\n', ReadChars(s[2..]))
      case 'r' => Before('\r', ReadChars(s[2..]))
      case 't' => Before('\t', ReadChars(s[2..]))
      case 'u' =>
        if |s| < 6 then None
        else
          (match HexChar(s[2..6])
           case Some(c) => Before(c, ReadChars(s[6..]))
           case None => None)
      case _ => None
  }

  ghost function ReadString(s: string): Option<string> {
    if s == [] || s[0] != '"' then None else ReadChars(s[1..])
  }

  lemma HexRead(n: nat)
    requires n < 16
    ensures HexValue(HexDigit(n)) == Some(n)
    ensures HexDigit(n) != '"' && HexDigit(n) != '\\'
  {
  }

  lemma ShortEscapeRead(piece: string, rest: string)
    requires |piece| == 2 && piece[0] == '\\'
    ensures ReadChars(piece + rest) ==
              match piece[1]
              case '"' => Before('"', ReadChars(rest))
              case '\\' => Before('\\', ReadChars(rest))
              case 'b' => Before(8 as char, ReadChars(rest))
              case 'f' => Before(12 as char, ReadChars(rest))
              case 'n' => Before('\n', ReadChars(rest))
              case 'r' => Before('\r', ReadChars(rest))
              case 't' => Before('\t', ReadChars(rest))
              case _ => ReadChars(piece + rest)
  {
    hide Before;
    assert (piece + rest)[2..] == rest && (piece + rest)[1] == piece[1];
  }

  lemma LongEscapeRead(h: char, l: char, rest: string)
    ensures ReadChars(['\\', 'u', '0', '0', h, l] + rest) ==
              match HexChar(['0', '0', h, l])
              case Some(c) => Before(c, ReadChars(rest))
              case None => None
  {
    hide Before, HexChar;
    var s := ['\\', 'u', '0', '0', h, l] + rest;
    assert s[6..] == rest && s[2..6] == ['0', '0', h, l];
    assert s[0] == '\\' && s[1] == 'u';
  }

  lemma EscapeRead(c: char, rest: string)
    ensures ReadChars(EscapeChar(c) + rest) == Before(c, ReadChars(rest))
  {
    hide ReadChars, Before, HexChar, HexValue, HexDigit;
    var piece := EscapeChar(c);
    if |piece| == 1 {
      PlainRead(c, rest);
    } else if |piece| == 2 {
      ShortEscapeRead(piece, rest);
    } else {
      ControlHex(c);
      LongEscapeRead(HexDigit(c as int / 16), HexDigit(c as int % 16), rest);
    }
  }

  lemma PlainRead(c: char, rest: string)
    requires c as int >= 0x20 && c != '"' && c != '\\'
    ensures ReadChars([c] + rest) == Before(c, ReadChars(rest))
  {
    hide Before;
    assert ([c] + rest)[1..] == rest;
  }

  lemma ControlHex(c: char)
    requires c as int < 0x20
    ensures HexChar(['0', '0', HexDigit(c as int / 16), HexDigit(c as int % 16)]) == Some(c)
  {
    hide HexDigit, HexValue;
    HexRead(0);
    HexRead(c as int / 16);
    HexRead(c as int % 16);
    assert HexValue('0') == Some(0) by { ZeroRead(); }
  }

  lemma ZeroRead()
    ensures HexValue('0') == Some(0)
  {
  }

  /** What is printed for a value is a string literal that stands for this value. */
  lemma {:induction false} StringifyReadsBack(v: string)
    ensures ReadString(Stringify(v)) == Some(v)
    ensures ReadChars(Escape(v) + ['"']) == Some(v)
  {
    hide EscapeChar;
    if v == [] {
      assert Escape(v) + ['"'] == ['"'];
    } else {
      StringifyReadsBack(v[1..]);
      EscapeRead(v[0], Escape(v[1..]) + ['"']);
      assert Escape(v) + ['"'] == EscapeChar(v[0]) + (Escape(v[1..]) + ['"']);
      assert v == [v[0]] + v[1..];
    }
    assert Stringify(v)[1..] == Escape(v) + ['"'];
  }

  // ----- saving -----

  const JSON_KEY := "LLM_MODELS"

  predicate NeedsQuotes(setting: Setting) {
    var v := setting.value;
    setting.key == JSON_KEY ||
    ' ' in v || '"' in v || '\'' in v || '#' in v || '=' in v || (v != [] && (v[0] == '{' || v[0] == '['))
  }

  function Printed(setting: Setting): string {
    if NeedsQuotes(setting) then Stringify(setting.value) else setting.value
  }

  /** The value is printed as a literal for the one JSON key, and when it holds a space, a quote, a hash or an equals
      sign or starts with a brace or a bracket; otherwise it is printed as it is. */
  lemma QuotedWhen(setting: Setting)
    ensures var v := setting.value;
            Printed(setting) ==
              if setting.key == "LLM_MODELS" || ' ' in v || '"' in v || '\'' in v || '#' in v || '=' in v ||
                 (|v| > 0 && v[0] == '{') || (|v| > 0 && v[0] == '[')
              then Stringify(v) else v
  {
  }

  function Line(setting: Setting): string {
    setting.key + ['='] + Printed(setting)
  }

  /** The text of the file: the line of each setting, with a line break after each, and one for no setting at all. */
  function Save(env: seq<Setting>): string {
    if env == [] then ['\n']
    else if |env| == 1 then Line(env[0]) + ['\n']
    else Line(env[0]) + ['\n'] + Save(env[1..])
  }

  // ----- loading -----

  /** The parts of a text between its line breaks. */
  function Split(s: string): (parts: seq<string>)
    ensures parts != []
    ensures forall part :: part in parts ==> '\n' !in part
    ensures forall part, c :: part in parts && c in part ==> c in s
  {
    if s == [] then [[]]
    else if s[0] == '\n' then [[]] + Split(s[1..])
    else
      var rest := Split(s[1..]);
      [[s[0]] + rest[0]] + rest[1..]
  }

  /** From left to right, each backslash that stands before `q` is dropped. */
  function Unescape(s: string, q: char): string {
    if |s| < 2 then s
    else if s[0] == '\\' && s[1] == q then [q] + Unescape(s[2..], q)
    else [s[0]] + Unescape(s[1..], q)
  }

  /** The position of the first equals sign, or the length of the text. */
  function IndexOfEquals(s: string): (i: nat)
    ensures i <= |s|
    ensures i < |s| ==> s[i] == '='
    ensures '=' !in s[..i]
  {
    if s == [] || s[0] == '=' then 0
    else
      var i := 1 + IndexOfEquals(s[1..]);
      assert s[..i] == [s[0]] + s[1..][..i - 1];
      i
  }

  /** The text without its first and last character; nothing is left of a single one. */
  function Inner(v: string): string {
    if |v| < 2 then [] else v[1..|v| - 1]
  }

  function ParseValue(text: string): string {
    var value := Trim(text);
    var bare :=
      if value != [] && ((value[0] == '"' && value[|value| - 1] == '"') || (value[0] == '\'' && value[|value| - 1] == '\''))
      then Inner(value) else value;
    Unescape(Unescape(bare, '"'), '\'')
  }

  function ParseLine(line: string): Option<Setting> {
    var trimmed := Trim(line);
    if trimmed == [] || trimmed[0] == '#' then None
    else
      var i := IndexOfEquals(trimmed);
      if 0 < i < |trimmed| then Some(Setting(Trim(trimmed[..i]), ParseValue(trimmed[i + 1..]))) else None
  }

  function LoadLines(lines: seq<string>): map<string, string> {
    if lines == [] then map[]
    else
      var env := LoadLines(lines[..|lines| - 1]);
      match ParseLine(lines[|lines| - 1])
      case Some(setting) => env[setting.key := setting.value]
      case None => env
  }

  /** The loader, filling its map line by line. */
  method LoadEnvFile(content: Option<string>) returns (env: map<string, string>)
    ensures content.None? ==> env == map[]
    ensures content.Some? ==> env == LoadLines(Split(content.value))
  {
    hide Trim, ParseValue, Split, IndexOfEquals;
    env := map[];
    if content.None? {
      return;
    }
    var lines := Split(content.value);
    for n := 0 to |lines|
      invariant env == LoadLines(lines[..n])
    {
      assert lines[..n + 1][..n] == lines[..n];
      var trimmed := Trim(lines[n]);
      if trimmed == [] || trimmed[0] == '#' {
        continue;
      }
      var i := IndexOfEquals(trimmed);
      if 0 < i < |trimmed| {
        env := env[Trim(trimmed[..i]) := ParseValue(trimmed[i + 1..])];
      }
    }
    assert lines[..|lines|] == lines;
  }

  // ----- which settings survive -----

  /** A key that a line can carry: not empty, no surrounding space, no `=`, no line break, no comment. */
  predicate GoodKey(key: string) {
    key != [] && Trim(key) == key && '=' !in key && '\n' !in key && key[0] != '#'
  }

  /** In quotes: no control character, and a backslash only right before a single quote. Without quotes: one
      line without surrounding space. */
  predicate GoodValue(setting: Setting) {
    var v := setting.value;
    if NeedsQuotes(setting) then BackslashesGood(v)
    else '\n' !in v && Trim(v) == v
  }

  predicate BackslashesGood(v: string) {
    forall i :: 0 <= i < |v| ==> GoodAt(v, i)
  }

  predicate GoodAt(v: string, i: nat)
    requires i < |v|
  {
    v[i] as int >= 0x20 && (v[i] == '\\' ==> i + 1 < |v| && v[i + 1] == '\'')
  }

  ghost predicate DistinctKeys(env: seq<Setting>) {
    forall i, j :: 0 <= i < j < |env| ==> env[i].key != env[j].key
  }

  function AsMap(env: seq<Setting>): map<string, string> {
    if env == [] then map[]
    else AsMap(env[..|env| - 1])[env[|env| - 1].key := env[|env| - 1].value]
  }

  // ----- quoted values -----

  /** What is left of a quoted value after unescaping its double quotes. */
  function HalfUnescaped(v: string): string {
    if v == [] then []
    else (if v[0] == '"' then ['"'] else EscapeChar(v[0])) + HalfUnescaped(v[1..])
  }

  lemma {:induction false} UnescapeDouble(v: string)
    ensures Unescape(Escape(v), '"') == HalfUnescaped(v)
    ensures Escape(v) != [] ==> Escape(v)[0] != '"'
  {
    if v != [] {
      var piece, rest := EscapeChar(v[0]), Escape(v[1..]);
      UnescapeDouble(v[1..]);
      if v[0] == '"' {
        assert (piece + rest)[2..] == rest;
      } else {
        UnescapeSkips(piece, rest, '"');
      }
    }
  }

  /** The backslash at `i`, if there is one, does not stand before a `q`. */
  predicate SkipsAt(piece: string, rest: string, q: char, i: nat)
    requires i < |piece|
  {
    piece[i] == '\\' ==> if i + 1 < |piece| then piece[i + 1] != q else rest == [] || rest[0] != q
  }

  /** Unescaping passes over a piece that has no backslash before the quote, inside or at its end. */
  lemma {:induction false} UnescapeSkips(piece: string, rest: string, q: char)
    requires forall i :: 0 <= i < |piece| ==> SkipsAt(piece, rest, q, i)
    ensures Unescape(piece + rest, q) == piece + Unescape(rest, q)
  {
    hide Unescape;
    if piece == [] {
      assert piece + rest == rest;
    } else {
      var tail := piece[1..];
      forall i | 0 <= i < |tail| ensures SkipsAt(tail, rest, q, i) {
        assert SkipsAt(piece, rest, q, i + 1);
      }
      UnescapeSkips(tail, rest, q);
      assert SkipsAt(piece, rest, q, 0);
      assert piece + rest == [piece[0]] + (tail + rest);
      UnescapeFirst(piece[0], tail + rest, q);
      assert piece == [piece[0]] + tail;
    }
  }

  lemma UnescapeFirst(c: char, rest: string, q: char)
    requires c == '\\' ==> rest == [] || rest[0] != q
    ensures Unescape([c] + rest, q) == [c] + Unescape(rest, q)
  {
    assert ([c] + rest)[1..] == rest;
  }

  /** A quoted value comes back unchanged exactly when its backslashes and characters are good; it never comes
      back shorter. */
  lemma {:induction false} QuotedComesBack(v: string)
    ensures Unescape(HalfUnescaped(v), '\'') == v <==> BackslashesGood(v)
    ensures |Unescape(HalfUnescaped(v), '\'')| >= |v|
  {
    if v != [] {
      hide BackslashesGood, GoodAt;
      var c, tail := v[0], v[1..];
      assert v == [c] + tail;
      GoodTail(v);
      if c == '\\' && tail != [] && tail[0] == '\'' {
        GoodTail(tail);
        QuotedComesBack(tail[1..]);
        KeptQuote(tail[1..]);
        assert v == ['\\', '\''] + tail[1..];
      } else {
        QuotedComesBack(tail);
        OtherFirst(c, tail);
      }
    }
  }

  /** Except for a backslash before a single quote, the first character comes back by itself: as it is, or
      as two or more characters. */
  lemma OtherFirst(c: char, tail: string)
    requires !(c == '\\' && tail != [] && tail[0] == '\'')
    ensures var back, rest := Unescape(HalfUnescaped([c] + tail), '\''), Unescape(HalfUnescaped(tail), '\'');
            if c as int >= 0x20 && c != '\\' then back == [c] + rest
            else |back| >= 2 + |rest| && back[0] == '\\'
  {
    HalfOf(c, tail);
    HalfStartsWith(tail);
    var piece, half := if c == '"' then ['"'] else EscapeChar(c), HalfUnescaped(tail);
    forall i | 0 <= i < |piece| ensures SkipsAt(piece, half, '\'', i) {
    }
    UnescapeSkips(piece, half, '\'');
  }

  lemma HalfOf(c: char, rest: string)
    ensures HalfUnescaped([c] + rest) == (if c == '"' then ['"'] else EscapeChar(c)) + HalfUnescaped(rest)
  {
    assert ([c] + rest)[1..] == rest;
  }

  lemma UnescapeHit(rest: string, q: char)
    ensures Unescape(['\\', q] + rest, q) == [q] + Unescape(rest, q)
  {
    assert (['\\', q] + rest)[2..] == rest;
  }

  lemma KeptQuote(rest: string)
    ensures Unescape(HalfUnescaped(['\\', '\''] + rest), '\'') == ['\\', '\''] + Unescape(HalfUnescaped(rest), '\'')
  {
    hide HalfUnescaped, Unescape;
    var half := HalfUnescaped(rest);
    HalfOf('\'', rest);
    HalfOf('\\', ['\''] + rest);
    assert ['\\', '\''] + rest == ['\\'] + (['\''] + rest);
    assert HalfUnescaped(['\\', '\''] + rest) == ['\\'] + (['\\', '\''] + half);
    UnescapeFirst('\\', ['\\', '\''] + half, '\'');
    UnescapeHit(half, '\'');
  }

  lemma HalfStartsWith(v: string)
    ensures v == [] ==> HalfUnescaped(v) == []
    ensures v != [] ==> HalfUnescaped(v) != [] && (HalfUnescaped(v)[0] == '\'' <==> v[0] == '\'')
  {
  }

  lemma GoodTail(v: string)
    requires v != []
    ensures BackslashesGood(v) <==>
              v[0] as int >= 0x20 && (v[0] == '\\' ==> |v| > 1 && v[1] == '\'') && BackslashesGood(v[1..])
  {
    var tail := v[1..];
    forall i | 0 <= i < |tail| ensures GoodAt(tail, i) <==> GoodAt(v, i + 1) {
    }
    if BackslashesGood(tail) && GoodAt(v, 0) {
      forall i | 0 <= i < |v| ensures GoodAt(v, i) {
        if i > 0 { assert GoodAt(tail, i - 1); }
      }
    }
    assert BackslashesGood(v) ==> GoodAt(v, 0);
  }

  lemma QuotedValueParsed(v: string)
    ensures ParseValue(Stringify(v)) == Unescape(HalfUnescaped(v), '\'')
  {
    var text := Stringify(v);
    assert text[0] == '"' && text[|text| - 1] == '"' && !IsSpace('"');
    assert Inner(text) == Escape(v);
    UnescapeDouble(v);
  }

  // ----- values without quotes -----

  lemma {:induction false} NothingToUnescape(s: string, q: char)
    requires q !in s
    ensures Unescape(s, q) == s
  {
    if |s| >= 2 {
      NothingToUnescape(s[1..], q);
      assert s == [s[0]] + s[1..];
    }
  }

  lemma PlainValueParsed(v: string)
    requires '"' !in v && '\'' !in v
    ensures ParseValue(v) == Trim(v)
  {
    var t := Trim(v);
    assert t != [] ==> t[0] in t;
    NothingToUnescape(t, '"');
    NothingToUnescape(t, '\'');
  }

  // ----- lines -----

  lemma SplitFirst(c: char, rest: string)
    ensures Split([c] + rest) == (if c == '\n' then [[]] + Split(rest) else [[c] + Split(rest)[0]] + Split(rest)[1..])
    ensures Split([]) == [[]]
  {
    assert ([c] + rest)[1..] == rest;
  }

  lemma FirstLonger(c: char, a: seq<string>, b: seq<string>)
    requires a != []
    ensures [[c] + (a + b)[0]] + (a + b)[1..] == [[c] + a[0]] + a[1..] + b
    ensures [[]] + (a + b) == [[]] + a + b
  {
  }

  lemma {:induction false} SplitAtBreak(a: string, b: string)
    ensures Split(a + ['\n'] + b) == Split(a) + Split(b)
  {
    hide Split;
    if a == [] {
      assert a + ['\n'] + b == ['\n'] + b;
      SplitFirst('\n', b);
    } else {
      var c, tail := a[0], a[1..];
      SplitAtBreak(tail, b);
      SplitFirst(c, tail + ['\n'] + b);
      SplitFirst(c, tail);
      assert a == [c] + tail && a + ['\n'] + b == [c] + (tail + ['\n'] + b);
      FirstLonger(c, Split(tail), Split(b));
    }
  }

  lemma {:induction false} SplitOneLine(s: string)
    requires '\n' !in s
    ensures Split(s) == [s]
  {
    if s != [] {
      SplitOneLine(s[1..]);
      assert s == [s[0]] + s[1..];
    }
  }

  /** A first part without a line break stays in front of the first line. */
  lemma {:induction false} SplitAfter(a: string, b: string)
    requires '\n' !in a
    ensures Split(a + b) == [a + Split(b)[0]] + Split(b)[1..]
  {
    var parts := Split(b);
    if a == [] {
      assert a + b == b && a + parts[0] == parts[0] && [parts[0]] + parts[1..] == parts;
    } else {
      assert (a + b)[1..] == a[1..] + b;
      SplitAfter(a[1..], b);
      assert [a[0]] + (a[1..] + parts[0]) == a + parts[0];
    }
  }

  /** The lines of the saved file: those of each setting in turn, and an empty one. */
  function LinesOf(env: seq<Setting>): seq<string> {
    if env == [] then [] else LinesOf(env[..|env| - 1]) + Split(Line(env[|env| - 1]))
  }

  lemma {:induction false} LinesOfFirst(env: seq<Setting>)
    requires env != []
    ensures LinesOf(env) == Split(Line(env[0])) + LinesOf(env[1..])
  {
    if |env| > 1 {
      LinesOfFirst(env[..|env| - 1]);
      assert env[..|env| - 1][1..] == env[1..][..|env| - 2];
    }
  }

  lemma {:induction false} SavedLines(env: seq<Setting>)
    ensures Split(Save(env)) == (if env == [] then [[]] else LinesOf(env)) + [[]]
  {
    if env == [] {
      SplitAtBreak([], []);
    } else {
      var first := Line(env[0]);
      LinesOfFirst(env);
      if |env| == 1 {
        assert first + ['\n'] == first + ['\n'] + [];
        SplitAtBreak(first, []);
      } else {
        SavedLines(env[1..]);
        SplitAtBreak(first, Save(env[1..]));
      }
    }
  }

  // ----- loading what was saved -----

  lemma {:induction false} LoadJoined(a: seq<string>, b: seq<string>)
    requires forall line :: line in b ==> ParseLine(line).None?
    ensures LoadLines(a + b) == LoadLines(a)
  {
    if b == [] {
      assert a + b == a;
    } else {
      assert (a + b)[..|a + b| - 1] == a + b[..|b| - 1];
      assert b[|b| - 1] in b;
      LoadJoined(a, b[..|b| - 1]);
    }
  }

  /** A key that is loaded is a good key. */
  lemma ParsedKeyIsGood(line: string)
    requires '\n' !in line && ParseLine(line).Some?
    ensures GoodKey(ParseLine(line).value.key)
  {
    var trimmed := Trim(line);
    var i := IndexOfEquals(trimmed);
    var name := trimmed[..i];
    var key := Trim(name);
    assert name[0] == trimmed[0];
    FirstKept(name);
  }

  lemma FirstKept(s: string)
    requires s != [] && !IsSpace(s[0])
    ensures Trim(s) != [] && Trim(s)[0] == s[0] && Trim(Trim(s)) == Trim(s)
  {
    TrimEndKeeps(s);
  }

  lemma {:induction false} TrimEndKeeps(s: string)
    requires s != [] && !IsSpace(s[0])
    ensures TrimEnd(s) != [] && TrimEnd(s)[0] == s[0]
  {
    if IsSpace(s[|s| - 1]) { TrimEndKeeps(s[..|s| - 1]); }
  }

  lemma {:induction false} LoadedKeysAreGood(lines: seq<string>)
    requires forall line :: line in lines ==> '\n' !in line
    ensures forall key :: key in LoadLines(lines) ==> GoodKey(key)
  {
    if lines != [] {
      var last := lines[|lines| - 1];
      assert last in lines;
      LoadedKeysAreGood(lines[..|lines| - 1]);
      if ParseLine(last).Some? { ParsedKeyIsGood(last); }
    }
  }

  /** The line of a good key gives back the key and the value parsed from what follows. */
  lemma LineParsed(key: string, text: string)
    requires GoodKey(key)
    ensures ParseLine(key + ['='] + text) == Some(Setting(key, ParseValue(text)))
  {
    var line := key + ['='] + text;
    var trimmed := Trim(line);
    assert line[0] == key[0];
    TrimmedLine(key, text);
    IndexAfterKey(key, TrimEnd(text));
    assert trimmed[..|key|] == key;
    assert trimmed[|key| + 1..] == TrimEnd(text);
    TrimTwice(text);
  }

  lemma {:induction false} TrimmedLine(key: string, text: string)
    requires key != [] && !IsSpace(key[0])
    ensures Trim(key + ['='] + text) == key + ['='] + TrimEnd(text)
  {
    var line := key + ['='] + text;
    assert TrimStart(line) == line;
    if text != [] && IsSpace(text[|text| - 1]) {
      assert line[..|line| - 1] == key + ['='] + text[..|text| - 1];
      TrimmedLine(key, text[..|text| - 1]);
      assert TrimStart(line[..|line| - 1]) == line[..|line| - 1];
    } else {
      assert line[|line| - 1] == if text == [] then '=' else text[|text| - 1];
    }
  }

  lemma {:induction false} IndexAfterKey(key: string, rest: string)
    requires '=' !in key
    ensures IndexOfEquals(key + ['='] + rest) == |key|
  {
    if key != [] {
      assert (key + ['='] + rest)[1..] == key[1..] + ['='] + rest;
      IndexAfterKey(key[1..], rest);
    }
  }

  lemma TrimTwice(text: string)
    ensures ParseValue(TrimEnd(text)) == ParseValue(text)
  {
    TrimEndFirst(text);
  }

  lemma {:induction false} TrimEndFirst(text: string)
    ensures Trim(TrimEnd(text)) == Trim(text)
  {
    if text != [] && IsSpace(text[|text| - 1]) {
      TrimEndFirst(text[..|text| - 1]);
      DropLastSpace(text);
    }
  }

  lemma {:induction false} DropLastSpace(text: string)
    requires text != [] && IsSpace(text[|text| - 1])
    ensures Trim(text[..|text| - 1]) == Trim(text)
  {
    var less := text[..|text| - 1];
    if IsSpace(text[0]) && |text| > 1 {
      assert less[1..] == text[1..][..|text[1..]| - 1];
      DropLastSpace(text[1..]);
    } else if |text| > 1 {
      assert TrimStart(text) == text && TrimStart(less) == less;
    }
  }

  /** The first line of a setting with a good key carries its value as far as the first line break. */
  lemma SettingLines(setting: Setting)
    requires GoodKey(setting.key)
    ensures var lines := Split(Line(setting));
            && ParseLine(lines[0]) == Some(Setting(setting.key, ParseValue(Split(Printed(setting))[0])))
            && forall line :: line in lines[1..] ==> ParseLine(line).None?
  {
    var head, text := setting.key + ['='], Printed(setting);
    var parts := Split(text);
    assert '\n' !in head;
    SplitAfter(head, text);
    LineParsed(setting.key, parts[0]);
    if NeedsQuotes(setting) {
      EscapedHasNoBreak(setting.value);
      SplitOneLine(text);
    } else {
      forall line | line in parts[1..] ensures ParseLine(line).None? {
        assert line in parts;
        NoEqualsNoSetting(line);
      }
    }
  }

  lemma PieceHasNoBreak(c: char)
    ensures '\n' !in EscapeChar(c)
  {
    hide HexDigit;
    if c as int < 0x20 {
      HexIsNoBreak(c as int / 16);
      HexIsNoBreak(c as int % 16);
    }
  }

  lemma HexIsNoBreak(n: nat)
    requires n < 16
    ensures HexDigit(n) != '\n'
  {
  }

  lemma {:induction false} EscapedHasNoBreak(v: string)
    ensures '\n' !in Escape(v)
  {
    hide EscapeChar;
    if v != [] {
      EscapedHasNoBreak(v[1..]);
      PieceHasNoBreak(v[0]);
    }
  }

  lemma NoEqualsNoSetting(line: string)
    requires '=' !in line
    ensures ParseLine(line).None?
  {
    var trimmed := Trim(line);
    assert forall i :: 0 <= i < |trimmed| ==> trimmed[i] in trimmed;
  }

  /** What is loaded for a setting with a good key. */
  function Parsed(setting: Setting): Setting {
    Setting(setting.key, ParseValue(Split(Printed(setting))[0]))
  }

  function ParsedAll(env: seq<Setting>): (parsed: seq<Setting>)
    ensures |parsed| == |env| && forall i :: 0 <= i < |env| ==> parsed[i] == Parsed(env[i])
  {
    seq(|env|, i requires 0 <= i < |env| => Parsed(env[i]))
  }

  lemma {:induction false} LoadSettings(env: seq<Setting>)
    requires forall setting :: setting in env ==> GoodKey(setting.key)
    ensures LoadLines(LinesOf(env)) == AsMap(ParsedAll(env))
  {
    if env != [] {
      hide GoodKey, Parsed, ParseLine, Split, Line;
      var n := |env| - 1;
      var before, last := LinesOf(env[..n]), Split(Line(env[n]));
      LoadSettings(env[..n]);
      assert env[n] in env;
      OneSetting(before, env[n]);
      assert ParsedAll(env)[..n] == ParsedAll(env[..n]);
    }
  }

  lemma OneSetting(before: seq<string>, setting: Setting)
    requires GoodKey(setting.key)
    ensures LoadLines(before + Split(Line(setting))) == LoadLines(before)[setting.key := Parsed(setting).value]
    ensures Parsed(setting).key == setting.key
  {
    hide GoodKey, ParseLine, Split, Line, ParseValue, Printed;
    var last := Split(Line(setting));
    SettingLines(setting);
    assert before + last == (before + [last[0]]) + last[1..];
    LoadJoined(before + [last[0]], last[1..]);
    assert (before + [last[0]])[..|before|] == before;
  }

  /** The value of one setting comes back exactly when it is good. */
  lemma ValueComesBack(setting: Setting)
    ensures Parsed(setting) == setting <==> GoodValue(setting)
  {
    if NeedsQuotes(setting) {
      QuotedSettingComesBack(setting);
    } else {
      PlainSettingComesBack(setting);
    }
  }

  lemma QuotedSettingComesBack(setting: Setting)
    requires NeedsQuotes(setting)
    ensures Parsed(setting).value == setting.value <==> BackslashesGood(setting.value)
  {
    hide ParseValue, Split, NeedsQuotes, Unescape, HalfUnescaped, BackslashesGood;
    EscapedHasNoBreak(setting.value);
    SplitOneLine(Stringify(setting.value));
    QuotedValueParsed(setting.value);
    QuotedComesBack(setting.value);
  }

  lemma PlainSettingComesBack(setting: Setting)
    requires !NeedsQuotes(setting)
    ensures Parsed(setting).value == setting.value <==> '\n' !in setting.value && Trim(setting.value) == setting.value
  {
    hide ParseValue, Split;
    var v := setting.value;
    var first := Split(v)[0];
    assert first in Split(v);
    PlainValueParsed(first);
    if '\n' !in v {
      SplitOneLine(v);
    }
  }

  // ----- any line -----

  /** A line sets something exactly when it holds an equals sign that is not its first character that counts, and is no
      comment. */
  lemma LineSetsSomething(line: string)
    ensures ParseLine(line).Some? <==>
              '=' in Trim(line) && Trim(line)[0] != '=' && Trim(line)[0] != '#'
  {
    var trimmed := Trim(line);
    var i := IndexOfEquals(trimmed);
    assert i < |trimmed| ==> trimmed[i] in trimmed;
    assert trimmed[..|trimmed|] == trimmed;
    if i > 0 { assert trimmed[0] in trimmed[..i]; }
  }

  /** The name is what stands before the first equals sign and the value what stands behind it, both trimmed. */
  lemma LineParts(line: string, name: string, text: string)
    requires Trim(line) == name + ['='] + text && '=' !in name && name != [] && name[0] != '#'
    ensures ParseLine(line) == Some(Setting(Trim(name), ParseValue(text)))
  {
    IndexAfterKey(name, text);
    var trimmed := Trim(line);
    assert trimmed[..|name|] == name && trimmed[|name| + 1..] == text;
  }

  /** Of lines that set the same name the last one counts. */
  lemma LaterLineWins(lines: seq<string>, line: string)
    ensures ParseLine(line).Some? ==>
              LoadLines(lines + [line]) == LoadLines(lines)[ParseLine(line).value.key := ParseLine(line).value.value]
    ensures ParseLine(line).None? ==> LoadLines(lines + [line]) == LoadLines(lines)
  {
    assert (lines + [line])[..|lines|] == lines;
  }

  // ----- lines written by hand -----

  lemma {:induction false} NoBackslashToDrop(s: string, q: char)
    requires '\\' !in s
    ensures Unescape(s, q) == s
  {
    if |s| >= 2 {
      NoBackslashToDrop(s[1..], q);
      assert s[0] in s && s == [s[0]] + s[1..];
    }
  }

  /** Equal quotes around a text are taken off; different ones are part of the value. */
  lemma BetweenQuotes(p: char, v: string, q: char)
    requires (p == '"' || p == '\'') && (q == '"' || q == '\'') && '\\' !in v
    ensures ParseValue([p] + v + [q]) == if p == q then v else [p] + v + [q]
  {
    var text := [p] + v + [q];
    assert text[0] == p && text[|text| - 1] == q && !IsSpace('"') && !IsSpace('\'');
    assert Trim(text) == text;
    assert text[1..|text| - 1] == v;
    assert '\\' !in text;
    NoBackslashToDrop(v, '"');
    NoBackslashToDrop(v, '\'');
    NoBackslashToDrop(text, '"');
    NoBackslashToDrop(text, '\'');
  }

  lemma OneLineLoaded(key: string, text: string)
    requires GoodKey(key) && '\n' !in text
    ensures LoadLines(Split(key + ['='] + text + ['\n'])) == map[key := ParseValue(text)]
  {
    hide ParseValue, ParseLine, Split;
    var line := key + ['='] + text;
    assert line + ['\n'] == line + ['\n'] + [];
    SplitAtBreak(line, []);
    SplitOneLine(line);
    SplitOneLine([]);
    LineParsed(key, text);
    BlankLine();
    assert Split(line + ['\n']) == [line] + [[]];
    LoadJoined([line], [[]]);
    assert [line][..0] == [];
  }

  lemma BlankLine()
    ensures ParseLine([]).None?
  {
  }

  /** A value between two equal quotes of either kind loads without them, and one between two different quotes keeps
      all of its characters. */
  lemma QuotedLineLoads(key: string, p: char, v: string, q: char)
    requires GoodKey(key) && (p == '"' || p == '\'') && (q == '"' || q == '\'') && '\\' !in v && '\n' !in v
    ensures LoadLines(Split(key + ['='] + [p] + v + [q] + ['\n'])) == map[key := if p == q then v else [p] + v + [q]]
  {
    hide ParseValue, LoadLines, Split;
    var text := [p] + v + [q];
    assert key + ['='] + [p] + v + [q] + ['\n'] == key + ['='] + text + ['\n'];
    BetweenQuotes(p, v, q);
    OneLineLoaded(key, text);
  }

  // ----- the round trip -----

  /** Saving and then loading gives back the same map if and only if every key and every value is good. */
  lemma SaveThenLoad(env: seq<Setting>)
    requires DistinctKeys(env)
    ensures LoadLines(Split(Save(env))) == AsMap(env) <==>
              forall setting :: setting in env ==> GoodKey(setting.key) && GoodValue(setting)
  {
    hide GoodKey, GoodValue, Split, Save, DistinctKeys, ParsedAll;
    var lines := Split(Save(env));
    var loaded := LoadLines(lines);
    KeysOfMap(env);
    LoadedIs(env);
    SameMap(env);
    if loaded == AsMap(env) {
      LoadedKeysAreGood(lines);
      forall setting | setting in env ensures GoodKey(setting.key) {
        assert setting.key in loaded;
      }
    }
    if forall setting :: setting in env ==> GoodKey(setting.key) {
      LoadSettings(env);
    }
  }

  lemma LoadedIs(env: seq<Setting>)
    ensures LoadLines(Split(Save(env))) == LoadLines(LinesOf(env))
  {
    SavedLines(env);
    assert ParseLine([]).None?;
    if env == [] {
      var none: seq<string>, blank: string := [], [];
      assert [blank] + [blank] == none + [blank, blank];
      LoadJoined(none, [blank, blank]);
    } else {
      LoadJoined(LinesOf(env), [[]]);
    }
  }

  lemma {:induction false} KeysOfMap(env: seq<Setting>)
    ensures forall setting :: setting in env ==> setting.key in AsMap(env)
  {
    if env != [] { KeysOfMap(env[..|env| - 1]); }
  }

  lemma {:induction false} LookUp(env: seq<Setting>, i: nat)
    requires DistinctKeys(env) && i < |env|
    ensures env[i].key in AsMap(env) && AsMap(env)[env[i].key] == env[i].value
  {
    if i < |env| - 1 { LookUp(env[..|env| - 1], i); }
  }

  lemma SameMap(env: seq<Setting>)
    requires DistinctKeys(env)
    ensures AsMap(ParsedAll(env)) == AsMap(env) <==> forall setting :: setting in env ==> GoodValue(setting)
  {
    hide GoodValue, AsMap, ParseValue;
    var parsed := ParsedAll(env);
    forall i | 0 <= i < |env|
      ensures env[i].key in AsMap(env) && AsMap(env)[env[i].key] == env[i].value
      ensures env[i].key in AsMap(parsed) && AsMap(parsed)[env[i].key] == Parsed(env[i]).value
      ensures Parsed(env[i]) == env[i] <==> GoodValue(env[i])
    {
      LookUp(env, i);
      LookUp(parsed, i);
      ValueComesBack(env[i]);
    }
    if forall setting :: setting in env ==> GoodValue(setting) {
      assert forall i :: 0 <= i < |env| ==> env[i] in env;
      assert parsed == env;
    }
    if AsMap(parsed) == AsMap(env) {
      forall setting | setting in env ensures GoodValue(setting) {
        var i :| 0 <= i < |env| && env[i] == setting;
        assert Parsed(env[i]) == env[i];
      }
    }
  }

  /** A domain that is easy to meet: printable values without backslash whose only white space is the plain
      space survive, under keys without white space, `=` or a leading `#`. */
  lemma PlainSettingsSurvive(env: seq<Setting>)
    requires DistinctKeys(env)
    requires forall setting :: setting in env ==>
      && setting.key != [] && setting.key[0] != '#'
      && (forall c :: c in setting.key ==> c != '=' && !IsSpace(c))
      && (forall c :: c in setting.value ==> c as int >= 0x20 && c != '\\' && (IsSpace(c) ==> c == ' '))
    ensures LoadLines(Split(Save(env))) == AsMap(env)
  {
    forall setting | setting in env ensures GoodKey(setting.key) && GoodValue(setting) {
      PlainSettingIsGood(setting);
    }
    SaveThenLoad(env);
  }

  lemma PlainSettingIsGood(setting: Setting)
    requires setting.key != [] && setting.key[0] != '#'
    requires forall c :: c in setting.key ==> c != '=' && !IsSpace(c)
    requires forall c :: c in setting.value ==> c as int >= 0x20 && c != '\\' && (IsSpace(c) ==> c == ' ')
    ensures GoodKey(setting.key) && GoodValue(setting)
  {
    var k, v := setting.key, setting.value;
    assert k[0] in k && k[|k| - 1] in k;
    assert IsSpace('\n');
    if v != [] {
      assert v[0] in v && v[|v| - 1] in v;
    }
    forall i | 0 <= i < |v| ensures GoodAt(v, i) {
      assert v[i] in v;
    }
  }

  function Doubled(v: string): string {
    if v == [] then [] else (if v[0] == '\\' then ['\\', '\\'] else [v[0]]) + Doubled(v[1..])
  }

  /** Without a single quote to stop it, a quoted value comes back with every backslash doubled. */
  lemma BackslashesDouble(v: string)
    requires '\'' !in v && forall c :: c in v ==> c as int >= 0x20
    ensures ParseValue(Stringify(v)) == Doubled(v)
    ensures '\\' in v ==> Doubled(v) != v
  {
    QuotedValueParsed(v);
    HalfIsDoubled(v);
    NothingToUnescape(Doubled(v), '\'');
  }

  lemma {:induction false} HalfIsDoubled(v: string)
    requires '\'' !in v && forall c :: c in v ==> c as int >= 0x20
    ensures HalfUnescaped(v) == Doubled(v) && '\'' !in Doubled(v)
    ensures |Doubled(v)| >= |v| + if '\\' in v then 1 else 0
  {
    if v != [] {
      assert v[0] in v && forall c :: c in v[1..] ==> c in v;
      HalfIsDoubled(v[1..]);
      assert v == [v[0]] + v[1..];
    }
  }

  /** A concrete setting that does not survive. */
  lemma BackslashDoesNotSurvive()
    ensures var env := [Setting("P", "\\ ")];
            LoadLines(Split(Save(env))) != AsMap(env)
  {
    var env := [Setting("P", "\\ ")];
    var v := env[0].value;
    assert v[1] == ' ' && !GoodAt(v, 0);
    assert env[0] in env;
    SaveThenLoad(env);
  }
}
