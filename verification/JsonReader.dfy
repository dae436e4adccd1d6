/**
 `json.loads` on integer-valued documents, and its exact forms.  The loose
 reader takes blanks between tokens, any escapes and members in any order.  An
 exact reader takes one layout only: its blanks and no others, names in
 increasing order, no escape that is not called for and none in a longer form
 than it need have, and no minus before zero.
 */
module JsonReader {
  import opened JsonValues
  import opened Outcomes
  import opened JsonText
  import Decimal
  import Lexicographic

  datatype Mode = Loose | Exact(style: Style)

  datatype Read<T> = Fail | Done(value: T, rest: string)

  // ------------------------------------------------------------------- blanks

  predicate IsBlank(c: char) {
    c == ' ' || c == '\t' || c == '\n' || c == '\r'
  }

  function SkipBlanks(s: string): (r: string)
    ensures |r| <= |s|
    ensures r == [] || !IsBlank(r[0])
  {
    if s == [] || !IsBlank(s[0]) then s else SkipBlanks(s[1..])
  }

  /** A line break and two blanks for each level. */
  predicate IndentAt(s: string, level: nat) {
    |s| >= 1 + 2 * level && s[0] == '\n' && forall i :: 1 <= i <= 2 * level ==> s[i] == ' '
  }

  /** Past the gap before an item, a member or a closing bracket. */
  function EatGap(s: string, mode: Mode, level: nat): (r: Option<string>)
    ensures r.Some? ==> |r.value| <= |s|
  {
    match mode
    case Loose => Some(SkipBlanks(s))
    case Exact(Compact) => Some(s)
    case Exact(Indented) => if IndentAt(s, level) then Some(s[1 + 2 * level..]) else None
  }

  /** Past blanks in a place where no layout writes any. */
  function EatBlanks(s: string, mode: Mode): (r: string)
    ensures |r| <= |s|
  {
    if mode.Loose? then SkipBlanks(s) else s
  }

  function EatColon(s: string, mode: Mode): (r: Option<string>)
    ensures r.Some? ==> |r.value| < |s|
  {
    var t := EatBlanks(s, mode);
    if t == [] || t[0] != ':' then None
    else match mode
      case Loose => Some(SkipBlanks(t[1..]))
      case Exact(Compact) => Some(t[1..])
      case Exact(Indented) => if |t| > 1 && t[1] == ' ' then Some(t[2..]) else None
  }

  /** What follows an item or a member: a comma, the closing bracket, or something else. */
  datatype After = More(rest: string) | Stop(rest: string) | Neither

  function Next(s: string, mode: Mode, level: nat, close: char): (a: After)
    ensures !a.Neither? ==> |a.rest| < |s|
  {
    var t := EatBlanks(s, mode);
    if t != [] && t[0] == ',' then More(t[1..])
    else match EatGap(s, mode, level)
      case None => Neither
      case Some(u) => if u != [] && u[0] == close then Stop(u[1..]) else Neither
  }

  // --------------------------------------------------------------- characters

  function HexValue(c: char): (d: int)
    ensures -1 <= d < 16
  {
    if '0' <= c <= '9' then c as int - 48
    else if 'a' <= c <= 'f' then c as int - 87
    else if 'A' <= c <= 'F' then c as int - 55
    else -1
  }

  /** The number that four hexadecimal digits at the start of s stand for, or -1. */
  function HexCode(s: string): (n: int)
    ensures -1 <= n < 0x10000
    ensures n >= 0 ==> |s| >= 4
  {
    if |s| < 4 || HexValue(s[0]) < 0 || HexValue(s[1]) < 0 || HexValue(s[2]) < 0 || HexValue(s[3]) < 0 then -1
    else ((HexValue(s[0]) * 16 + HexValue(s[1])) * 16 + HexValue(s[2])) * 16 + HexValue(s[3])
  }

  /** A hexadecimal digit has its place in one of the two alphabets as its value. */
  lemma HexValueExact(c: char, d: nat)
    requires d < 16
    ensures HexValue(c) == d <==> c == "0123456789abcdef"[d] || c == "0123456789ABCDEF"[d]
  {
  }

  predicate LowerHex(s: string) {
    |s| >= 4 && forall i :: 0 <= i < 4 ==> '0' <= s[i] <= '9' || 'a' <= s[i] <= 'f'
  }

  /** The character that a letter after a backslash stands for. */
  function Short(letter: char): Option<char> {
    match letter
    case '\"' => Some('\"')
    case '\\' => Some('\\')
    case '/' => Some('/')
    case 'n' => Some('\n')
    case 'r' => Some('\r')
    case 't' => Some('\t')
    case 'b' => Some('\U{8}')
    case 'f' => Some('\U{c}')
    case _ => None
  }

  /** The characters that have a short escape and must be escaped. */
  predicate HasShort(c: char) {
    c == '\"' || c == '\\' || c == '\n' || c == '\r' || c == '\t' || c == '\U{8}' || c == '\U{c}'
  }

  /** The characters that a layout writes by their numbers. */
  predicate WantsHex(c: char, style: Style) {
    !HasShort(c) && (c < ' ' || (style.Indented? && c > '~'))
  }

  /** One or two escapes by number, past the first backslash and u. */
  function ReadUnicode(s: string, mode: Mode): (r: Read<char>)
    ensures r.Done? ==> |r.rest| < |s|
  {
    var code := HexCode(s);
    if code < 0 || 0xDC00 <= code < 0xE000 || (mode.Exact? && !LowerHex(s)) then Fail
    else if code < 0xD800 || 0xE000 <= code then
      if mode.Exact? && !WantsHex(code as char, mode.style) then Fail else Done(code as char, s[4..])
    else if |s| < 6 || s[4] != '\\' || s[5] != 'u' then Fail
    else
      var low := HexCode(s[6..]);
      if !(0xDC00 <= low < 0xE000) || (mode.Exact? && (mode.style.Compact? || !LowerHex(s[6..]))) then Fail
      else Done((0x10000 + (code - 0xD800) * 1024 + (low - 0xDC00)) as char, s[10..])
  }

  /** One character of a string body; fails at a closing quote. */
  function ReadChar(s: string, mode: Mode): (r: Read<char>)
    ensures r.Done? ==> |r.rest| < |s|
  {
    if s == [] || s[0] == '\"' || s[0] < ' ' then Fail
    else if s[0] != '\\' then
      if mode.Exact? && WantsHex(s[0], mode.style) then Fail else Done(s[0], s[1..])
    else if |s| == 1 then Fail
    else if s[1] == 'u' then ReadUnicode(s[2..], mode)
    else match Short(s[1])
      case None => Fail
      case Some(c) => if mode.Exact? && !HasShort(c) then Fail else Done(c, s[2..])
  }

  /** A string body up to and including its closing quote. */
  function ReadBody(s: string, mode: Mode): (r: Read<string>)
    ensures r.Done? ==> |r.rest| < |s|
    decreases |s|
  {
    if s != [] && s[0] == '\"' then Done("", s[1..])
    else match ReadChar(s, mode)
      case Fail => Fail
      case Done(c, rest) =>
        match ReadBody(rest, mode)
        case Fail => Fail
        case Done(tail, rest') => Done([c] + tail, rest')
  }

  // ------------------------------------------------------------------ scalars

  function DigitRun(s: string): (n: nat)
    ensures n <= |s|
    ensures forall i :: 0 <= i < n ==> Decimal.IsDigit(s[i])
    ensures n < |s| ==> !Decimal.IsDigit(s[n])
  {
    if s == [] || !Decimal.IsDigit(s[0]) then 0 else 1 + DigitRun(s[1..])
  }

  /** Digits without a leading zero. */
  function ReadNat(s: string): (r: Read<nat>)
    ensures r.Done? ==> |r.rest| < |s|
  {
    var n := DigitRun(s);
    if n == 0 || (n > 1 && s[0] == '0') then Fail else Done(Decimal.ToNat(s[..n]), s[n..])
  }

  function ReadWord(s: string, word: string, v: Json): (r: Read<Json>)
    requires word != []
    ensures r.Done? ==> |r.rest| < |s|
  {
    if word <= s then Done(v, s[|word|..]) else Fail
  }

  function ReadNumber(s: string, mode: Mode): (r: Read<Json>)
    ensures r.Done? ==> |r.rest| < |s|
  {
    if s != [] && s[0] == '-' then
      match ReadNat(s[1..])
      case Fail => Fail
      case Done(n, rest) => if mode.Exact? && n == 0 then Fail else Done(Int(0 - n), rest)
    else
      match ReadNat(s)
      case Fail => Fail
      case Done(n, rest) => Done(Int(n), rest)
  }

  /** A value that is neither a list nor an object. */
  function ReadScalar(s: string, mode: Mode): (r: Read<Json>)
    ensures r.Done? ==> |r.rest| < |s|
  {
    if s == [] then Fail
    else if s[0] == 'n' then ReadWord(s, "null", Null)
    else if s[0] == 't' then ReadWord(s, "true", Bool(true))
    else if s[0] == 'f' then ReadWord(s, "false", Bool(false))
    else if s[0] == '\"' then
      match ReadBody(s[1..], mode)
      case Fail => Fail
      case Done(text, rest) => Done(Str(text), rest)
    else ReadNumber(s, mode)
  }

  // --------------------------------------------------------------- containers

  function ReadValue(s: string, mode: Mode, level: nat): (r: Read<Json>)
    ensures r.Done? ==> |r.rest| < |s|
    decreases |s|, 1
  {
    if s == [] then Fail
    else if s[0] == '[' then
      var t := EatBlanks(s[1..], mode);
      if t != [] && t[0] == ']' then Done(Arr([]), t[1..])
      else match ReadItems(s[1..], mode, level) {
        case Fail => Fail
        case Done(items, rest) => Done(Arr(items), rest)
      }
    else if s[0] == '{' then
      var t := EatBlanks(s[1..], mode);
      if t != [] && t[0] == '}' then Done(Obj(map[]), t[1..])
      else match ReadMembers(s[1..], mode, level, None) {
        case Fail => Fail
        case Done(members, rest) => Done(Obj(members), rest)
      }
    else ReadScalar(s, mode)
  }

  /** One or more values separated by commas, and the closing bracket. */
  function ReadItems(s: string, mode: Mode, level: nat): (r: Read<seq<Json>>)
    ensures r.Done? ==> |r.rest| < |s|
    decreases |s|, 3
  {
    match ReadItem(s, mode, level + 1)
    case Fail => Fail
    case Done(v, rest) =>
      match Next(rest, mode, level, ']')
      case Neither => Fail
      case Stop(rest') => Done([v], rest')
      case More(tail) =>
        match ReadItems(tail, mode, level)
        case Fail => Fail
        case Done(vs, rest') => Done([v] + vs, rest')
  }

  function ReadItem(s: string, mode: Mode, level: nat): (r: Read<Json>)
    ensures r.Done? ==> |r.rest| < |s|
    decreases |s|, 2
  {
    match EatGap(s, mode, level)
    case None => Fail
    case Some(t) => ReadValue(t, mode, level)
  }

  function ReadMember(s: string, mode: Mode, level: nat): (r: Read<(string, Json)>)
    ensures r.Done? ==> |r.rest| < |s|
    decreases |s|, 2
  {
    match EatGap(s, mode, level)
    case None => Fail
    case Some(t) =>
      if t == [] || t[0] != '\"' then Fail
      else match ReadBody(t[1..], mode)
        case Fail => Fail
        case Done(key, rest) =>
          match EatColon(rest, mode)
          case None => Fail
          case Some(tail) =>
            match ReadValue(tail, mode, level)
            case Fail => Fail
            case Done(v, rest') => Done((key, v), rest')
  }

  /** One or more members and the closing brace.  A repeated name keeps its last value; an exact
      reader wants every name above the one before. */
  function ReadMembers(s: string, mode: Mode, level: nat, before: Option<string>): (r: Read<Dict>)
    ensures r.Done? ==> |r.rest| < |s|
    decreases |s|, 3
  {
    match ReadMember(s, mode, level + 1)
    case Fail => Fail
    case Done((key, v), rest) =>
      if mode.Exact? && before.Some? && !Lexicographic.Less(before.value, key) then Fail
      else match Next(rest, mode, level, '}')
        case Neither => Fail
        case Stop(rest') => Done(map[key := v], rest')
        case More(tail) =>
          match ReadMembers(tail, mode, level, Some(key))
          case Fail => Fail
          case Done(more, rest') => Done(map[key := v] + more, rest')
  }

  /** A whole text. */
  function Parse(s: string): Option<Json> {
    match ReadValue(SkipBlanks(s), Loose, 0)
    case Fail => None
    case Done(v, rest) => if SkipBlanks(rest) == [] then Some(v) else None
  }

  /** A whole text in one layout, and nothing else. */
  function ParseExact(s: string, style: Style): Option<Json> {
    match ReadValue(s, Exact(style), 0)
    case Fail => None
    case Done(v, rest) => if rest == [] then Some(v) else None
  }
}
