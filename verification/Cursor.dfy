/** Page cursors: key values as JSON, carried as unpadded base64url (sections 3.2 and 5 of RFC 4648). */
module Cursor {
  import opened Sequences
  import opened Wrappers

  type digit = x: int | 0 <= x < 64

  /** A-Z, a-z, 0-9, minus and underscore. */
  function CharOf(d: digit): char {
    if d < 26 then 'A' + d as char
    else if d < 52 then 'a' + (d - 26) as char
    else if d < 62 then '0' + (d - 52) as char
    else if d == 62 then '-' else '_'
  }

  function DigitOf(c: char): Option<digit> {
    if 'A' <= c <= 'Z' then Some((c - 'A') as int)
    else if 'a' <= c <= 'z' then Some((c - 'a') as int + 26)
    else if '0' <= c <= '9' then Some((c - '0') as int + 52)
    else if c == '-' then Some(62) else if c == '_' then Some(63) else None
  }

  // three bytes are four six-bit digits
  function D0(x: byte): digit { x / 4 }
  function D1(x: byte, y: byte): digit { x % 4 * 16 + y / 16 }
  function D2(y: byte, z: byte): digit { y % 16 * 4 + z / 64 }
  function D3(z: byte): digit { z % 64 }

  function B0(a: digit, b: digit): byte { a * 4 + b / 16 }
  function B1(b: digit, c: digit): byte { b % 16 * 16 + c / 4 }
  function B2(c: digit, d: digit): byte { c % 4 * 64 + d }

  lemma GroupBack(x: byte, y: byte, z: byte)
    ensures B0(D0(x), D1(x, y)) == x && B1(D1(x, y), D2(y, z)) == y && B2(D2(y, z), D3(z)) == z
  {
  }

  /** Four digits for every three bytes; a rest of one or two bytes, filled with zero bits, gives two or three. */
  function ToDigits(b: seq<byte>): seq<digit> {
    if |b| == 0 then []
    else if |b| == 1 then [D0(b[0]), D1(b[0], 0)]
    else if |b| == 2 then [D0(b[0]), D1(b[0], b[1]), D2(b[1], 0)]
    else [D0(b[0]), D1(b[0], b[1]), D2(b[1], b[2]), D3(b[2])] + ToDigits(b[3..])
  }

  function FromDigits(d: seq<digit>): seq<byte> {
    if |d| < 2 then []
    else if |d| == 2 then [B0(d[0], d[1])]
    else if |d| == 3 then [B0(d[0], d[1]), B1(d[1], d[2])]
    else [B0(d[0], d[1]), B1(d[1], d[2]), B2(d[2], d[3])] + FromDigits(d[4..])
  }

  lemma FromGroup(a: digit, b: digit, c: digit, d: digit, rest: seq<digit>)
    ensures FromDigits([a, b, c, d] + rest) == [B0(a, b), B1(b, c), B2(c, d)] + FromDigits(rest)
  {
    assert ([a, b, c, d] + rest)[4..] == rest;
  }

  lemma GroupRoundTrip(x: byte, y: byte, z: byte, rest: seq<digit>)
    ensures FromDigits([D0(x), D1(x, y), D2(y, z), D3(z)] + rest) == [x, y, z] + FromDigits(rest)
  {
    FromGroup(D0(x), D1(x, y), D2(y, z), D3(z), rest);
    GroupBack(x, y, z);
  }

  lemma {:induction false} DigitsRoundTrip(b: seq<byte>)
    ensures FromDigits(ToDigits(b)) == b
  {
    hide D0, D1, D2, D3, B0, B1, B2;
    if |b| == 1 {
      GroupBack(b[0], 0, 0);
    } else if |b| == 2 {
      GroupBack(b[0], b[1], 0);
    } else if |b| >= 3 {
      DigitsRoundTrip(b[3..]);
      GroupRoundTrip(b[0], b[1], b[2], ToDigits(b[3..]));
      assert b == [b[0], b[1], b[2]] + b[3..];
    }
  }

  function Chars(d: seq<digit>): string {
    if d == [] then "" else Chars(d[..|d| - 1]) + [CharOf(d[|d| - 1])]
  }

  function Digits(s: string): Option<seq<digit>> {
    if s == "" then Some([])
    else match Digits(s[..|s| - 1])
      case None => None
      case Some(front) => if DigitOf(s[|s| - 1]).None? then None else Some(front + [DigitOf(s[|s| - 1]).value])
  }

  lemma DigitRoundTrip(d: digit)
    ensures DigitOf(CharOf(d)) == Some(d) && CharOf(d) != '='
  {
  }

  lemma DigitAppended(s: string, c: char)
    requires Digits(s).Some? && DigitOf(c).Some?
    ensures Digits(s + [c]) == Some(Digits(s).value + [DigitOf(c).value])
  {
    assert (s + [c])[..|s|] == s;
  }

  lemma {:induction false} CharsRoundTrip(d: seq<digit>)
    ensures Digits(Chars(d)) == Some(d) && '=' !in Chars(d) && |Chars(d)| == |d|
  {
    if d != [] {
      var front, last := d[..|d| - 1], d[|d| - 1];
      CharsRoundTrip(front);
      DigitRoundTrip(last);
      DigitAppended(Chars(front), CharOf(last));
      assert d == front + [last];
    }
  }

  function Pads(n: nat): string {
    seq(n, _ => '=')
  }

  /** The padding that completes the last group of four. */
  function PadCount(n: nat): nat {
    (4 - n % 4) % 4
  }

  /** base64.urlsafe_b64encode. */
  function Encode64(b: seq<byte>): string {
    var body := Chars(ToDigits(b));
    body + Pads(PadCount(|body|))
  }

  /** str.rstrip("="). */
  function Strip(s: string): (r: string)
    ensures |r| <= |s|
  {
    if s != "" && s[|s| - 1] == '=' then Strip(s[..|s| - 1]) else s
  }

  /** value + "=" * (-len(value) % 4). */
  function Repad(s: string): string {
    s + Pads(PadCount(|s|))
  }

  lemma PadIsUnique(n: nat, pad: nat)
    requires (n + pad) % 4 == 0 && pad < 4
    ensures PadCount(n) == pad
  {
  }

  /** base64.urlsafe_b64decode of padded text; None is its error. */
  function Decode64(s: string): (r: Option<seq<byte>>)
    ensures r.Some? ==> |s| == |Repad(Strip(s))|
  {
    var body := Strip(s);
    if |s| % 4 != 0 || |s| - |body| > 2 then None
    else
      PadIsUnique(|body|, |s| - |body|);
      match Digits(body)
      case None => None
      case Some(d) => Some(FromDigits(d))
  }

  lemma {:induction false} StripPads(s: string, n: nat)
    requires '=' !in s
    ensures Strip(s + Pads(n)) == s
  {
    if n > 0 {
      assert (s + Pads(n))[..|s| + n - 1] == s + Pads(n - 1);
      StripPads(s, n - 1);
    } else {
      assert s + Pads(0) == s;
    }
  }

  /** Dropping the padding loses nothing: it can be put back from the length. */
  lemma PaddingIsRecoverable(b: seq<byte>)
    ensures Strip(Encode64(b)) == Chars(ToDigits(b)) && Repad(Strip(Encode64(b))) == Encode64(b)
  {
    CharsRoundTrip(ToDigits(b));
    StripPads(Chars(ToDigits(b)), PadCount(|ToDigits(b)|));
  }

  lemma {:induction false} DigitCount(b: seq<byte>)
    ensures |ToDigits(b)| % 4 != 1 && (b != [] ==> ToDigits(b) != [])
  {
    if |b| >= 3 {
      DigitCount(b[3..]);
    }
  }

  lemma PadFits(n: nat)
    requires n % 4 != 1
    ensures (n + PadCount(n)) % 4 == 0 && PadCount(n) <= 2
  {
  }

  lemma PaddedDecodes(body: string, n: nat, d: seq<digit>)
    requires Digits(body) == Some(d) && '=' !in body && (|body| + n) % 4 == 0 && n <= 2
    ensures Decode64(body + Pads(n)) == Some(FromDigits(d))
  {
    hide FromDigits, Digits;
    StripPads(body, n);
  }

  lemma Base64RoundTrip(b: seq<byte>)
    ensures Decode64(Encode64(b)) == Some(b) && (b != [] ==> Strip(Encode64(b)) != "")
  {
    PaddingIsRecoverable(b);
    CharsRoundTrip(ToDigits(b));
    DigitCount(b);
    PadFits(|ToDigits(b)|);
    PaddedDecodes(Chars(ToDigits(b)), PadCount(|ToDigits(b)|), ToDigits(b));
    DigitsRoundTrip(b);
  }

  // ---- the values in a cursor ----

  datatype SqlValue = Null | Text(text: string) | Integer(value: int) | Real(bits: nat) | Blob(data: seq<byte>)

  /** A JSON array element; Tagged is the object holding one blob as standard base64. */
  datatype Item =
    | JsonNull
    | JsonText(text: string)
    | JsonInteger(value: int)
    | JsonReal(bits: nat)
    | Tagged(data: string)
    | OtherJson

  /** json.dumps to UTF-8, json.loads, and standard base64 of blobs, seen from here. */
  datatype Lib = Lib(dumps: seq<Item> -> seq<byte>, loads: seq<byte> -> Option<seq<Item>>,
                     base64: seq<byte> -> string, unbase64: string -> Option<seq<byte>>)

  ghost predicate Faithful(lib: Lib) {
    && (forall items :: lib.loads(lib.dumps(items)) == Some(items) && lib.dumps(items) != [])
    && (forall b :: lib.unbase64(lib.base64(b)) == Some(b))
  }

  function EncodeValue(lib: Lib, v: SqlValue): Item {
    match v
    case Null => JsonNull
    case Text(t) => JsonText(t)
    case Integer(i) => JsonInteger(i)
    case Real(r) => JsonReal(r)
    case Blob(b) => Tagged(lib.base64(b))
  }

  function Items(lib: Lib, values: seq<SqlValue>): seq<Item> {
    seq(|values|, i requires 0 <= i < |values| => EncodeValue(lib, values[i]))
  }

  function EncodeCursor(lib: Lib, values: seq<SqlValue>): string {
    Strip(Encode64(lib.dumps(Items(lib, values))))
  }

  function DecodeItem(lib: Lib, item: Item): Option<SqlValue> {
    match item
    case JsonNull => Some(Null)
    case JsonText(t) => Some(Text(t))
    case JsonInteger(i) => Some(Integer(i))
    case JsonReal(r) => Some(Real(r))
    case Tagged(text) =>
      (match lib.unbase64(text)
       case None => None
       case Some(b) => Some(Blob(b)))
    case OtherJson => None
  }

  function DecodeItems(lib: Lib, items: seq<Item>): Option<seq<SqlValue>> {
    if items == [] then Some([])
    else match DecodeItems(lib, items[..|items| - 1])
      case None => None
      case Some(front) =>
        match DecodeItem(lib, items[|items| - 1])
        case None => None
        case Some(v) => Some(front + [v])
  }

  function Unpacked(lib: Lib, cursor: string): Option<seq<Item>> {
    match Decode64(Repad(cursor))
    case None => None
    case Some(raw) => lib.loads(raw)
  }

  /** What a request's cursor stands for; None is the rejection. */
  function CursorValues(lib: Lib, cursor: Option<string>): Option<seq<SqlValue>> {
    if cursor.None? || cursor.value == "" then Some([])
    else match Unpacked(lib, cursor.value)
      case None => None
      case Some(items) => DecodeItems(lib, items)
  }

  lemma {:induction false} OneBadItem(lib: Lib, items: seq<Item>, i: nat)
    requires i < |items| && DecodeItem(lib, items[i]).None?
    ensures DecodeItems(lib, items).None?
  {
    if i < |items| - 1 {
      OneBadItem(lib, items[..|items| - 1], i);
    }
  }

  /** The decoder appends one value per element and rejects the first it does not know. */
  method DecodeCursor(lib: Lib, cursor: Option<string>) returns (values: Option<seq<SqlValue>>)
    ensures values == CursorValues(lib, cursor)
  {
    if cursor.None? || cursor.value == "" {
      return Some([]);
    }
    var items := Unpacked(lib, cursor.value);
    if items.None? {
      return None;
    }
    var result: seq<SqlValue> := [];
    for i := 0 to |items.value|
      invariant DecodeItems(lib, items.value[..i]) == Some(result)
    {
      var one := DecodeItem(lib, items.value[i]);
      if one.None? {
        OneBadItem(lib, items.value, i);
        return None;
      }
      assert items.value[..i + 1][..i] == items.value[..i];
      result := result + [one.value];
    }
    assert items.value[..|items.value|] == items.value;
    return Some(result);
  }

  lemma {:induction false} ItemsRoundTrip(lib: Lib, values: seq<SqlValue>)
    requires Faithful(lib)
    ensures DecodeItems(lib, Items(lib, values)) == Some(values)
  {
    if values != [] {
      var n := |values| - 1;
      ItemsRoundTrip(lib, values[..n]);
      assert Items(lib, values)[..n] == Items(lib, values[..n]);
      assert values == values[..n] + [values[n]];
    }
  }

  /** Every cursor the server hands out comes back as the key values it was made from. */
  lemma CursorRoundTrip(lib: Lib, values: seq<SqlValue>)
    requires Faithful(lib)
    ensures EncodeCursor(lib, values) != "" && CursorValues(lib, Some(EncodeCursor(lib, values))) == Some(values)
  {
    var raw := lib.dumps(Items(lib, values));
    PaddingIsRecoverable(raw);
    Base64RoundTrip(raw);
    assert lib.loads(raw) == Some(Items(lib, values));
    ItemsRoundTrip(lib, values);
  }
}
