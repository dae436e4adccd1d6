/**
 `json.dumps` with sorted keys, in the two layouts that are used: compact text
 with characters as they are (`separators=(",", ":"), ensure_ascii=False`), and
 text indented by two blanks a level with every character outside printable
 ASCII escaped (`indent=2`).
 */
module JsonText {
  import opened JsonValues
  import Decimal
  import Lexicographic

  datatype Style = Compact | Indented

  function HexChar(d: nat): char
    requires d < 16
  {
    if d < 10 then (48 + d) as char else (87 + d) as char
  }

  function Hex4(n: int): string
    requires 0 <= n < 0x10000
  {
    [HexChar(n / 4096), HexChar(n / 256 % 16), HexChar(n / 16 % 16), HexChar(n % 16)]
  }

  function EscapeChar(c: char, style: Style): string {
    var n := c as int;
    if c == '\"' then "\\\""
    else if c == '\\' then "\\\\"
    else if c == '\n' then "\\n"
    else if c == '\r' then "\\r"
    else if c == '\t' then "\\t"
    else if c == '\U{8}' then "\\b"
    else if c == '\U{c}' then "\\f"
    else if ' ' <= c && (style.Compact? || c <= '~') then [c]
    else if n < 0x10000 then "\\u" + Hex4(n)
    else "\\u" + Hex4(0xD800 + (n - 0x10000) / 1024) + ("\\u" + Hex4(0xDC00 + (n - 0x10000) % 1024))
  }

  function Escape(s: string, style: Style): string {
    if s == [] then [] else EscapeChar(s[0], style) + Escape(s[1..], style)
  }

  function Quote(s: string, style: Style): string {
    "\"" + Escape(s, style) + "\""
  }

  /** A line break and the indentation of a level. */
  function NewLine(level: nat): string {
    if level == 0 then "\n" else NewLine(level - 1) + "  "
  }

  /** What stands before an item, a member or a closing bracket of some level. */
  function Gap(style: Style, level: nat): string {
    if style.Compact? then "" else NewLine(level)
  }

  function Colon(style: Style): string {
    if style.Compact? then ":" else ": "
  }

  function Print(v: Json, style: Style, level: nat): string
    decreases v
  {
    match v
    case Null => "null"
    case Bool(b) => if b then "true" else "false"
    case Int(n) => Decimal.OfInt(n)
    case Str(s) => Quote(s, style)
    case Arr(items) =>
      if items == [] then "[]" else "[" + PrintItems(items, style, level + 1) + Gap(style, level) + "]"
    case Obj(members) =>
      if members == map[] then "{}"
      else "{" + PrintMembers(v, Lexicographic.Sorted(members.Keys), style, level + 1) + Gap(style, level) + "}"
  }

  function PrintItems(items: seq<Json>, style: Style, level: nat): string
    decreases items
  {
    if items == [] then ""
    else if |items| == 1 then Gap(style, level) + Print(items[0], style, level)
    else Gap(style, level) + Print(items[0], style, level) + "," + PrintItems(items[1..], style, level)
  }

  function PrintMembers(v: Json, keys: seq<string>, style: Style, level: nat): string
    requires v.Obj? && forall k :: k in keys ==> k in v.members
    decreases v, |keys|
  {
    if keys == [] then ""
    else if |keys| == 1 then PrintMember(v, keys[0], style, level)
    else PrintMember(v, keys[0], style, level) + "," + PrintMembers(v, keys[1..], style, level)
  }

  function PrintMember(v: Json, key: string, style: Style, level: nat): string
    requires v.Obj? && key in v.members
    decreases v, 0
  {
    Gap(style, level) + Quote(key, style) + Colon(style) + Print(v.members[key], style, level)
  }
}
