/** JSON texts and values, and the strict reader that `json.loads` is.

    A text is a sequence of Unicode code points, lone surrogates included, as a Python `str` is.
    The reader works on the unread part of the text and hands back what it left unread. */
module JsonText {
  import opened Options

  type Code = c: int | 0 <= c < 0x110000
  type Text = seq<Code>

  const QUOTE: Code := 0x22
  const COMMA: Code := 0x2C
  const COLON: Code := 0x3A
  const BACKSLASH: Code := 0x5C
  const LBRACKET: Code := 0x5B
  const RBRACKET: Code := 0x5D
  const LBRACE: Code := 0x7B
  const RBRACE: Code := 0x7D
  const SPACE: Code := 0x20
  const LETTER_U: Code := 0x75

  datatype Parsed<+T> = Ok(value: T, rest: Text) | Err

  /** The six bare words Python's decoder knows: null, true, false, NaN, Infinity, -Infinity. */
  datatype Word = WNull | WTrue | WFalse | WNaN | WInfinity | WNegInfinity

  /** A decoded value. A number is kept as its token: `int` and `float` are functions of it.
      An object is an insertion-ordered dictionary. */
  datatype Json =
    | JWord(word: Word)
    | JNum(token: Text)
    | JStr(text: Text)
    | JArr(items: seq<Json>)
    | JObj(members: seq<Entry>)

  datatype Entry = Entry(key: Text, value: Json)

  // ---------------------------------------------------------------- characters

  predicate IsBlank(c: Code) { c == 0x20 || c == 0x09 || c == 0x0A || c == 0x0D }

  predicate IsDigit(c: Code) { 0x30 <= c <= 0x39 }

  predicate IsHigh(c: Code) { 0xD800 <= c <= 0xDBFF }

  predicate IsLow(c: Code) { 0xDC00 <= c <= 0xDFFF }

  /** Can a number token continue with this character? */
  predicate ContinuesNumber(c: Code) { IsDigit(c) || c == 0x2E || c == 0x65 || c == 0x45 }

  function SkipBlanks(s: Text): (r: Text)
    ensures |r| <= |s|
  {
    if s != [] && IsBlank(s[0]) then SkipBlanks(s[1..]) else s
  }

  // ---------------------------------------------------------------- words

  function Spell(w: Word): (t: Text)
    ensures |t| > 0 && !IsBlank(t[0])
  {
    match w
    case WNull => [0x6E, 0x75, 0x6C, 0x6C]
    case WTrue => [0x74, 0x72, 0x75, 0x65]
    case WFalse => [0x66, 0x61, 0x6C, 0x73, 0x65]
    case WNaN => [0x4E, 0x61, 0x4E]
    case WInfinity => [0x49, 0x6E, 0x66, 0x69, 0x6E, 0x69, 0x74, 0x79]
    case WNegInfinity => [0x2D, 0x49, 0x6E, 0x66, 0x69, 0x6E, 0x69, 0x74, 0x79]
  }

  function ParseWord(s: Text): (r: Parsed<Word>)
    ensures r.Ok? ==> |r.rest| < |s|
  {
    if s == [] then Err
    else if s[0] == 0x6E && Spell(WNull) <= s then Ok(WNull, s[4..])
    else if s[0] == 0x74 && Spell(WTrue) <= s then Ok(WTrue, s[4..])
    else if s[0] == 0x66 && Spell(WFalse) <= s then Ok(WFalse, s[5..])
    else if s[0] == 0x4E && Spell(WNaN) <= s then Ok(WNaN, s[3..])
    else if s[0] == 0x49 && Spell(WInfinity) <= s then Ok(WInfinity, s[8..])
    else if s[0] == 0x2D && Spell(WNegInfinity) <= s then Ok(WNegInfinity, s[9..])
    else Err
  }

  // ---------------------------------------------------------------- numbers

  function DigitRun(s: Text): (n: nat)
    ensures n <= |s|
    ensures s != [] && IsDigit(s[0]) ==> n > 0
  {
    if s != [] && IsDigit(s[0]) then 1 + DigitRun(s[1..]) else 0
  }

  /** Length of an optional sign and an integer part without leading zeros; 0 when there is none. */
  function IntLen(s: Text): (n: nat)
    ensures n <= |s|
  {
    var sign := if s != [] && s[0] == 0x2D then 1 else 0;
    if sign == |s| || !IsDigit(s[sign]) then 0
    else if s[sign] == 0x30 then sign + 1
    else sign + DigitRun(s[sign..])
  }

  function FracLen(s: Text): (n: nat)
    ensures n <= |s|
  {
    if |s| >= 2 && s[0] == 0x2E && IsDigit(s[1]) then 1 + DigitRun(s[1..]) else 0
  }

  function ExpLen(s: Text): (n: nat)
    ensures n <= |s|
  {
    if s == [] || (s[0] != 0x65 && s[0] != 0x45) then 0
    else
      var j := if |s| > 1 && (s[1] == 0x2B || s[1] == 0x2D) then 2 else 1;
      if j < |s| && IsDigit(s[j]) then j + DigitRun(s[j..]) else 0
  }

  /** Length of the longest number token at the front of `s`; 0 when there is none. */
  function NumberLen(s: Text): (n: nat)
    ensures n <= |s|
  {
    var i := IntLen(s);
    if i == 0 then 0
    else
      var f := i + FracLen(s[i..]);
      f + ExpLen(s[f..])
  }

  predicate IsNumber(t: Text) { t != [] && NumberLen(t) == |t| }

  // ---------------------------------------------------------------- strings

  /** One character of a string literal: written as itself (or with a two-character escape),
      or as a `\uXXXX` code unit. */
  datatype Unit = Raw(code: Code) | Esc(code: Code)

  function HexValue(c: Code): (v: int)
    ensures -1 <= v < 16
  {
    if IsDigit(c) then c - 0x30
    else if 0x41 <= c <= 0x46 then c - 0x37
    else if 0x61 <= c <= 0x66 then c - 0x57
    else -1
  }

  predicate StartsWithHex4(s: Text) {
    |s| >= 4 && forall i :: 0 <= i < 4 ==> HexValue(s[i]) >= 0
  }

  function Hex4(s: Text): (u: Code)
    requires StartsWithHex4(s)
    ensures u < 0x10000
  {
    ((HexValue(s[0]) * 16 + HexValue(s[1])) * 16 + HexValue(s[2])) * 16 + HexValue(s[3])
  }

  /** What the two-character escape `\c` stands for. */
  function ShortEscape(c: Code): Option<Code> {
    if c == QUOTE || c == BACKSLASH || c == 0x2F then Some(c)
    else if c == 0x62 then Some(0x08)
    else if c == 0x66 then Some(0x0C)
    else if c == 0x6E then Some(0x0A)
    else if c == 0x72 then Some(0x0D)
    else if c == 0x74 then Some(0x09)
    else None
  }

  /** Reads one character of a string literal; the closing quote and control characters are none. */
  function ParseUnit(s: Text): (r: Parsed<Unit>)
    ensures r.Ok? ==> |r.rest| < |s|
  {
    if s == [] || s[0] == QUOTE || s[0] < 0x20 then Err
    else if s[0] != BACKSLASH then Ok(Raw(s[0]), s[1..])
    else if |s| < 2 then Err
    else if s[1] == LETTER_U then
      if StartsWithHex4(s[2..]) then Ok(Esc(Hex4(s[2..])), s[6..]) else Err
    else
      match ShortEscape(s[1])
      case Some(c) => Ok(Raw(c), s[2..])
      case None => Err
  }

  /** Reads a string literal after its opening quote, up to and including the closing one. */
  function ParseUnits(s: Text): (r: Parsed<seq<Unit>>)
    ensures r.Ok? ==> |r.rest| < |s|
  {
    if s != [] && s[0] == QUOTE then Ok([], s[1..])
    else
      match ParseUnit(s)
      case Err => Err
      case Ok(u, rest) =>
        match ParseUnits(rest)
        case Err => Err
        case Ok(us, rest') => Ok([u] + us, rest')
  }

  function JoinPair(high: Code, low: Code): (c: Code)
    requires IsHigh(high) && IsLow(low)
    ensures c >= 0x10000
  {
    0x10000 + (high - 0xD800) * 0x400 + (low - 0xDC00)
  }

  predicate PairAt(us: seq<Unit>) {
    |us| > 1 && us[0].Esc? && us[1].Esc? && IsHigh(us[0].code) && IsLow(us[1].code)
  }

  /** The text of a literal: an escaped high surrogate followed at once by an escaped low one
      is a single code point. */
  function Decode(us: seq<Unit>): Text {
    if us == [] then []
    else if PairAt(us) then [JoinPair(us[0].code, us[1].code)] + Decode(us[2..])
    else [us[0].code] + Decode(us[1..])
  }

  function ParseString(s: Text): (r: Parsed<Text>)
    ensures r.Ok? ==> |r.rest| < |s|
  {
    match ParseUnits(s)
    case Err => Err
    case Ok(us, rest) => Ok(Decode(us), rest)
  }

  // ---------------------------------------------------------------- dictionaries

  /** Assigns `d[k] = v`: a key already there keeps its place, a new one goes to the end. */
  function Put(d: seq<Entry>, k: Text, v: Json): seq<Entry> {
    if d == [] then [Entry(k, v)]
    else if d[0].key == k then [Entry(k, v)] + d[1..]
    else [d[0]] + Put(d[1..], k, v)
  }

  /** `dict(pairs)`. */
  function DictOf(pairs: seq<Entry>): seq<Entry> {
    if pairs == [] then []
    else
      var n := |pairs| - 1;
      Put(DictOf(pairs[..n]), pairs[n].key, pairs[n].value)
  }

  // ---------------------------------------------------------------- values

  function ParseValue(s: Text): (r: Parsed<Json>)
    ensures r.Ok? ==> |r.rest| < |s|
    decreases |s|, 1
  {
    if s == [] then Err
    else if s[0] == QUOTE then
      match ParseString(s[1..])
      case Err => Err
      case Ok(t, rest) => Ok(JStr(t), rest)
    else if s[0] == LBRACE then ParseObject(s[1..])
    else if s[0] == LBRACKET then ParseArray(s[1..])
    else if NumberLen(s) > 0 then Ok(JNum(s[..NumberLen(s)]), s[NumberLen(s)..])
    else
      match ParseWord(s)
      case Err => Err
      case Ok(w, rest) => Ok(JWord(w), rest)
  }

  function ParseArray(s: Text): (r: Parsed<Json>)
    ensures r.Ok? ==> |r.rest| < |s|
    decreases |s|, 3
  {
    var s1 := SkipBlanks(s);
    if s1 != [] && s1[0] == RBRACKET then Ok(JArr([]), s1[1..])
    else
      match ParseItems(s1)
      case Err => Err
      case Ok(items, rest) => Ok(JArr(items), rest)
  }

  function ParseItems(s: Text): (r: Parsed<seq<Json>>)
    ensures r.Ok? ==> |r.rest| < |s|
    decreases |s|, 2
  {
    match ParseValue(s)
    case Err => Err
    case Ok(v, rest) =>
      var s1 := SkipBlanks(rest);
      if s1 == [] then Err
      else if s1[0] == RBRACKET then Ok([v], s1[1..])
      else if s1[0] != COMMA then Err
      else
        match ParseItems(SkipBlanks(s1[1..]))
        case Err => Err
        case Ok(vs, rest') => Ok([v] + vs, rest')
  }

  function ParseObject(s: Text): (r: Parsed<Json>)
    ensures r.Ok? ==> |r.rest| < |s|
    decreases |s|, 3
  {
    var s1 := SkipBlanks(s);
    if s1 != [] && s1[0] == RBRACE then Ok(JObj([]), s1[1..])
    else
      match ParseMembers(s1)
      case Err => Err
      case Ok(pairs, rest) => Ok(JObj(DictOf(pairs)), rest)
  }

  function ParseMembers(s: Text): (r: Parsed<seq<Entry>>)
    ensures r.Ok? ==> |r.rest| < |s|
    decreases |s|, 2
  {
    if s == [] || s[0] != QUOTE then Err
    else
      match ParseString(s[1..])
      case Err => Err
      case Ok(key, rest) =>
        var s1 := SkipBlanks(rest);
        if s1 == [] || s1[0] != COLON then Err
        else
          match ParseValue(SkipBlanks(s1[1..]))
          case Err => Err
          case Ok(v, rest') =>
            var s2 := SkipBlanks(rest');
            if s2 == [] then Err
            else if s2[0] == RBRACE then Ok([Entry(key, v)], s2[1..])
            else if s2[0] != COMMA then Err
            else
              match ParseMembers(SkipBlanks(s2[1..]))
              case Err => Err
              case Ok(pairs, rest'') => Ok([Entry(key, v)] + pairs, rest'')
  }

  /** `json.loads`: one value, blanks around it, nothing else. */
  function Loads(t: Text): Option<Json> {
    match ParseValue(SkipBlanks(t))
    case Err => None
    case Ok(v, rest) => if SkipBlanks(rest) == [] then Some(v) else None
  }
}
