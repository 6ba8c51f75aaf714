/**
 * The signed message against its reference: the prefix followed by the JSON text of
 * one nested array, strings escaped as section 7 of RFC 8259 requires for printable
 * ASCII; and which values are accepted into it.
 */
module Json {
  import opened Common
  import opened Wire
  import Qrvm

  /** The part of JSON the message uses. */
  datatype Value = String(s: string) | Boolean(b: bool) | Array(items: seq<Value>)

  function Stringify(v: Value): string
    decreases v
  {
    match v
    case String(s) => "\"" + Escape(s) + "\""
    case Boolean(b) => if b then "true" else "false"
    case Array(items) => "[" + Items(items) + "]"
  }

  function Items(vs: seq<Value>): string
    decreases vs
  {
    if vs == [] then ""
    else if |vs| == 1 then Stringify(vs[0])
    else Stringify(vs[0]) + ("," + Items(vs[1..]))
  }

  function NameOf(t: PrimaryType): string {
    match t
    case OrderV2 => "OrderV2"
    case FillIntentV2 => "FillIntentV2"
    case FillV2 => "FillV2"
    case CancelV2 => "CancelV2"
  }

  /** A number becomes its decimal text. */
  function ToJson(v: Wire.Value): Value {
    match v
    case Number(n) => String(Decimal(n))
    case Text(s) => String(s)
    case Flag(b) => Boolean(b)
  }

  function Pairs(fields: seq<Field>, values: seq<Wire.Value>): (r: seq<Value>)
    requires |fields| == |values|
    ensures |r| == |fields|
  {
    if fields == [] then []
    else [Array([String(fields[0].name), ToJson(values[0])])] + Pairs(fields[1..], values[1..])
  }

  /** `["2", type, [[key, value], ...], [[name, value], ...]]` */
  function Document(domain: seq<Wire.Value>, t: PrimaryType, values: seq<Wire.Value>): Value
    requires |domain| == |DOMAIN_KEYS| && |values| == |Schema(t)|
  {
    Array([String("2"), String(NameOf(t)), Array(Pairs(DOMAIN_KEYS, domain)), Array(Pairs(Schema(t), values))])
  }

  /** Names of fields and types need no escape. */
  predicate Plain(s: string) { forall c :: c in s ==> c != '"' && c != '\\' }

  lemma {:induction false} PlainIsItself(s: string)
    requires Plain(s)
    ensures Escape(s) == s
  {
    if s != [] {
      assert s[0] in s && forall c :: c in s[1..] ==> c in s;
      PlainIsItself(s[1..]);
      assert [s[0]] + s[1..] == s;
    }
  }

  lemma OneField(f: Field, v: Wire.Value)
    ensures Stringify(Array([String(f.name), ToJson(v)])) == EncodeField(f, v)
  {
    var items := [String(f.name), ToJson(v)];
    assert items[1..] == [ToJson(v)];
    assert Items(items) == Stringify(items[0]) + ("," + Stringify(ToJson(v)));
    assert "[" + (Quoted(f.name) + ("," + EncodeValue(v))) + "]" == "[" + Quoted(f.name) + "," + EncodeValue(v) + "]";
  }

  lemma {:induction false} AllFields(fields: seq<Field>, values: seq<Wire.Value>)
    requires |fields| == |values|
    ensures Items(Pairs(fields, values)) == EncodeFields(fields, values)
  {
    if fields != [] {
      AllFields(fields[1..], values[1..]);
      OneField(fields[0], values[0]);
      assert Pairs(fields, values)[1..] == Pairs(fields[1..], values[1..]);
      if |fields| == 1 {
        assert EncodeFields(fields, values) == EncodeField(fields[0], values[0]) + ("" + EncodeFields([], []))
          by { assert fields[1..] == [] && values[1..] == []; }
      }
    }
  }

  lemma FourItems(a: Value, b: Value, c: Value, d: Value)
    ensures Stringify(Array([a, b, c, d]))
         == "[" + (Stringify(a) + ("," + (Stringify(b) + ("," + (Stringify(c) + ("," + Stringify(d))))))) + "]"
  {
    var cd, bcd, all := [c, d], [b, c, d], [a, b, c, d];
    assert cd[1..] == [d] && bcd[1..] == cd && all[1..] == bcd;
    assert Items([d]) == Stringify(d);
    assert Items(cd) == Stringify(c) + ("," + Items([d]));
    assert Items(bcd) == Stringify(b) + ("," + Items(cd));
    assert Items(all) == Stringify(a) + ("," + Items(bcd));
  }

  lemma NamesArePlain(t: PrimaryType)
    ensures Plain(NameOf(t)) && TypeTag(t) == "\"" + NameOf(t) + "\""
  {
  }

  lemma QuotedPlain(s: string)
    requires Plain(s)
    ensures Stringify(String(s)) == "\"" + s + "\""
  {
    PlainIsItself(s);
  }

  lemma Join(prefix: string, head: string, two: string, tag: string, a: string, b: string)
    requires head == prefix + ("[" + two + ",")
    ensures prefix + ("[" + (two + ("," + (tag + ("," + (("[" + a + "]") + ("," + ("[" + b + "]"))))))) + "]")
         == head + (tag + (",[" + (a + ("],[" + (b + "]]")))))
  {
    var tail := a + ("],[" + (b + "]]"));
    assert ("[" + a + "]") + ("," + ("[" + b + "]")) + "]" == "[" + tail;
  }

  /** The document's text in the pieces the encoder writes. */
  lemma DocumentText(two: string, name: string, keys: seq<Field>, domain: seq<Wire.Value>,
                     fields: seq<Field>, values: seq<Wire.Value>)
    requires |keys| == |domain| && |fields| == |values| && Plain(two) && Plain(name)
    ensures Stringify(Array([String(two), String(name), Array(Pairs(keys, domain)), Array(Pairs(fields, values))]))
         == "[" + (("\"" + two + "\"") + ("," + (("\"" + name + "\"") + ("," + (("[" + EncodeFields(keys, domain) + "]")
            + ("," + ("[" + EncodeFields(fields, values) + "]"))))))) + "]"
  {
    AllFields(keys, domain);
    AllFields(fields, values);
    QuotedPlain(two);
    QuotedPlain(name);
    FourItems(String(two), String(name), Array(Pairs(keys, domain)), Array(Pairs(fields, values)));
  }

  /** The head and the tag, in those pieces. */
  lemma HeadText()
    ensures MESSAGE_HEAD == MESSAGE_PREFIX + ("[" + ("\"" + "2" + "\"") + ",") && Plain("2")
  {
    assert "[\"2\"," == "[" + ("\"" + "2" + "\"") + ",";
  }

  lemma BytesText(domain: seq<Wire.Value>, t: PrimaryType, values: seq<Wire.Value>, head: string, tag: string)
    requires Accepted(DOMAIN_KEYS, domain) && Accepted(Schema(t), values)
    requires head == MESSAGE_HEAD && tag == TypeTag(t)
    ensures MessageBytes(domain, t, values)
         == head + (tag + (",[" + (EncodeFields(DOMAIN_KEYS, domain)
                                  + ("],[" + (EncodeFields(Schema(t), values) + "]]")))))
  {
  }

  lemma Assemble(prefix: string, head: string, two: string, name: string, tag: string,
                 keys: seq<Field>, domain: seq<Wire.Value>, fields: seq<Field>, values: seq<Wire.Value>)
    requires |keys| == |domain| && |fields| == |values| && Plain(two) && Plain(name)
    requires head == prefix + ("[" + ("\"" + two + "\"") + ",") && tag == "\"" + name + "\""
    ensures head + (tag + (",[" + (EncodeFields(keys, domain) + ("],[" + (EncodeFields(fields, values) + "]]")))))
         == prefix + Stringify(Array([String(two), String(name), Array(Pairs(keys, domain)),
                                      Array(Pairs(fields, values))]))
  {
    DocumentText(two, name, keys, domain, fields, values);
    Join(prefix, head, "\"" + two + "\"", tag, EncodeFields(keys, domain), EncodeFields(fields, values));
  }

  /** The bytes are the prefix and the JSON text of the document, nothing more. */
  lemma MessageIsJson(domain: seq<Wire.Value>, t: PrimaryType, values: seq<Wire.Value>)
    requires Accepted(DOMAIN_KEYS, domain) && Accepted(Schema(t), values)
    ensures MessageBytes(domain, t, values) == MESSAGE_PREFIX + Stringify(Document(domain, t, values))
  {
    HeadText();
    NamesArePlain(t);
    BytesText(domain, t, values, MESSAGE_HEAD, TypeTag(t));
    Assemble(MESSAGE_PREFIX, MESSAGE_HEAD, "2", NameOf(t), TypeTag(t), DOMAIN_KEYS, domain, Schema(t), values);
  }

  // ---- which values are accepted ----

  /** An integer field takes a safe number, or the decimal text of any integer, that fits
      its width. */
  lemma IntegersExactly(bits: nat, v: Wire.Value)
    ensures ValueOk(Uint(bits), v) <==>
      || (v.Number? && v.n <= 9007199254740991 && v.n < Pow2(bits))
      || (v.Text? && exists n: nat :: n < Pow2(bits) && v.s == Decimal(n))
  {
    if v.Text? && IsUintText(v.s) { CanonicalIsDecimal(v.s); }
    if v.Text? && exists n: nat :: n < Pow2(bits) && v.s == Decimal(n) {
      var n: nat :| n < Pow2(bits) && v.s == Decimal(n);
      DecimalIsCanonical(n);
    }
  }

  lemma {:induction false} WidthsDouble(bits: nat)
    ensures Pow2(0) == 1 && Pow2(bits + 1) == Pow2(bits) + Pow2(bits)
  {
  }

  lemma {:induction false} WidthsAdd(a: nat, b: nat)
    ensures Pow2(a + b) == Pow2(a) * Pow2(b)
  {
    if a > 0 {
      WidthsAdd(a - 1, b);
      assert Pow2(a) * Pow2(b) == 2 * (Pow2(a - 1) * Pow2(b));
    }
  }

  /** The widths the messages use; variables, so that no power is unrolled. */
  lemma WidthsInUse(w8: nat, w64: nat)
    requires w8 == 8 && w64 == 64
    ensures Pow2(w8) == 0x100 && Pow2(w64) == 0x1_0000_0000_0000_0000
  {
    var w1, w2, w4, w16, w32 := w8 / 8, w8 / 4, w8 / 2, w8 + w8, w64 / 2;
    assert Pow2(w1) == 2 * Pow2(w1 - 1);
    WidthsAdd(w1, w1);
    WidthsAdd(w2, w2);
    WidthsAdd(w4, w4);
    WidthsAdd(w8, w8);
    WidthsAdd(w16, w16);
    WidthsAdd(w32, w32);
  }

  /** A digest field takes `0x` and the sixty-four lower-case digits of a 256-bit number. */
  lemma DigestsExactly(v: Wire.Value, half: nat)
    requires half == 64
    ensures ValueOk(Bytes32, v) <==>
      v.Text? && exists n: nat :: n < Qrvm.Pow16(half) && v.s == "0x" + Qrvm.Digits(n, half)
  {
    if ValueOk(Bytes32, v) {
      var digits := v.s[2..];
      forall i | 0 <= i < |digits| ensures Qrvm.IsLowerHex(digits[i]) {
        assert digits[i] in digits;
      }
      Qrvm.DigitsOfValue(digits);
      assert v.s == "0x" + digits;
    }
    if v.Text? && exists n: nat :: n < Qrvm.Pow16(half) && v.s == "0x" + Qrvm.Digits(n, half) {
      var n: nat :| n < Qrvm.Pow16(half) && v.s == "0x" + Qrvm.Digits(n, half);
      assert v.s[2..] == Qrvm.Digits(n, half);
    }
  }

  /** A text field takes exactly the ninety-five printable ASCII characters. */
  lemma TextsExactly(v: Wire.Value)
    ensures ValueOk(Ascii, v) <==> v.Text? && forall c :: c in v.s ==> 32 <= c as int && c as int < 127
    ensures ValueOk(Bool, v) <==> v.Flag?
  {
  }
}
