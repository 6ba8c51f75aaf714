/**
 * The signed message of portable protocol V2 (`protocolMessageBytes`): a fixed
 * prefix and canonical JSON, `["2", type, domain, values]`. Strings are printable
 * ASCII, so JSON escapes only the quote and the backslash (RFC 8259, section 7).
 */
module Wire {
  import opened Common

  datatype FieldType = Uint(bits: nat) | Bool | Bytes32 | Ascii

  datatype Field = Field(name: string, kind: FieldType)

  datatype PrimaryType = OrderV2 | FillIntentV2 | FillV2 | CancelV2

  /** A message value as the caller may pass it. */
  datatype Value = Number(n: nat) | Text(s: string) | Flag(b: bool)

  /** The type's name as a JSON string; none of the names needs an escape. */
  function TypeTag(t: PrimaryType): string {
    match t
    case OrderV2 => "\"OrderV2\""
    case FillIntentV2 => "\"FillIntentV2\""
    case FillV2 => "\"FillV2\""
    case CancelV2 => "\"CancelV2\""
  }

  const DEPLOYMENT_FIELDS: seq<Field> := [
    Field("ethChainId", Uint(256)), Field("ethHtlc", Ascii), Field("qrlChainId", Uint(256)), Field("qrlHtlc", Ascii)]

  function Schema(t: PrimaryType): seq<Field> {
    match t
    case OrderV2 => [
      Field("direction", Ascii), Field("asset", Ascii), Field("fromAmount", Uint(256)), Field("toAmount", Uint(256)),
      Field("makerEthAccount", Ascii), Field("makerQrlAccount", Ascii), Field("visibility", Ascii),
      Field("allowedTakerEth", Ascii), Field("allowedTakerQrl", Ascii), Field("prelocked", Bool),
      Field("hashlock", Bytes32), Field("initiatorTimeout", Uint(64)), Field("issuedAt", Uint(64)),
      Field("expiresAt", Uint(64)), Field("nonce", Bytes32), Field("makerTokenCommitment", Bytes32),
      Field("shareTokenCommitment", Bytes32)] + DEPLOYMENT_FIELDS
    case FillIntentV2 => [
      Field("orderDigest", Bytes32), Field("requestNonce", Bytes32), Field("takerEthAccount", Ascii),
      Field("takerQrlAccount", Ascii), Field("releaseCommitment", Bytes32), Field("issuedAt", Uint(64)),
      Field("expiresAt", Uint(64))] + DEPLOYMENT_FIELDS
    case FillV2 => [
      Field("orderDigest", Bytes32), Field("orderNonce", Bytes32), Field("intentDigest", Bytes32),
      Field("fillNonce", Bytes32), Field("takerEthAccount", Ascii), Field("takerQrlAccount", Ascii),
      Field("releaseCommitment", Bytes32), Field("hashlock", Bytes32), Field("initiatorTimeout", Uint(64)),
      Field("responderTimeout", Uint(64)), Field("issuedAt", Uint(64)), Field("respondBy", Uint(64))]
      + DEPLOYMENT_FIELDS
    case CancelV2 => [
      Field("orderDigest", Bytes32), Field("orderNonce", Bytes32), Field("cancelNonce", Bytes32),
      Field("issuedAt", Uint(64)), Field("reasonCode", Uint(8))] + DEPLOYMENT_FIELDS
  }

  // ---- decimal integers ----

  predicate IsDigit(c: char) { 48 <= c as int <= 57 }

  function Digit(d: nat): char requires d < 10 { (d + 48) as char }

  function DigitValue(c: char): nat requires IsDigit(c) { c as nat - 48 }

  function Decimal(n: nat): string {
    if n < 10 then [Digit(n)] else Decimal(n / 10) + [Digit(n % 10)]
  }

  /** The pattern `0` or a nonzero digit followed by digits. */
  predicate IsUintText(s: string) {
    |s| > 0 && (forall c :: c in s ==> IsDigit(c)) && (s[0] == '0' ==> |s| == 1)
  }

  function UintValue(s: string): nat
    requires forall c :: c in s ==> IsDigit(c)
  {
    if s == [] then 0 else 10 * UintValue(s[..|s| - 1]) + DigitValue(s[|s| - 1])
  }

  function Pow2(n: nat): nat { if n == 0 then 1 else 2 * Pow2(n - 1) }

  const MAX_SAFE_INTEGER: nat := 9_007_199_254_740_991

  lemma {:induction false} DecimalIsCanonical(n: nat)
    ensures IsUintText(Decimal(n)) && UintValue(Decimal(n)) == n
    ensures n > 0 ==> Decimal(n)[0] != '0'
  {
    if n < 10 {
      assert Decimal(n)[..0] == [];
    } else {
      DecimalIsCanonical(n / 10);
      var s := Decimal(n);
      assert s[..|s| - 1] == Decimal(n / 10);
    }
  }

  lemma DivideByTen(n: nat, d: nat)
    requires d < 10
    ensures (10 * n + d) / 10 == n && (10 * n + d) % 10 == d
  {
  }

  /** A canonical text is the decimal of its own value, so equal values mean equal text. */
  lemma {:induction false} CanonicalIsDecimal(s: string)
    requires IsUintText(s)
    ensures Decimal(UintValue(s)) == s
    ensures |s| > 1 ==> UintValue(s) >= 10
  {
    if |s| == 1 {
      assert s[..0] == [] && IsDigit(s[0]);
      assert UintValue(s) == DigitValue(s[0]) < 10;
      assert Digit(DigitValue(s[0])) == s[0] && s == [s[0]];
    } else {
      var front := s[..|s| - 1];
      assert IsUintText(front);
      CanonicalIsDecimal(front);
      assert UintValue(front) > 0 by {
        if |front| == 1 { assert front[..0] == []; assert front[0] == s[0]; }
      }
      var n, last := UintValue(front), s[|s| - 1];
      assert s == front + [last];
      assert UintValue(s) == 10 * n + DigitValue(last);
      assert IsDigit(last);
      DivideByTen(n, DigitValue(last));
      assert Digit(DigitValue(last)) == last;
    }
  }

  // ---- which payloads are accepted ----

  predicate IsHexLower(c: char) { '0' <= c <= '9' || 'a' <= c <= 'f' }

  predicate Printable(s: string) { forall c :: c in s ==> ' ' <= c <= '~' }

  predicate ValueOk(kind: FieldType, v: Value) {
    match kind
    case Uint(bits) =>
      (v.Number? && v.n <= MAX_SAFE_INTEGER && v.n < Pow2(bits))
      || (v.Text? && IsUintText(v.s) && UintValue(v.s) < Pow2(bits))
    case Bool => v.Flag?
    case Bytes32 => v.Text? && |v.s| == 66 && v.s[..2] == "0x" && forall c :: c in v.s[2..] ==> IsHexLower(c)
    case Ascii => v.Text? && Printable(v.s)
  }

  predicate Accepted(fields: seq<Field>, values: seq<Value>) {
    |values| == |fields| && forall i :: 0 <= i < |fields| ==> ValueOk(fields[i].kind, values[i])
  }

  /** Numbers are sent as their decimal text. */
  function Normal(v: Value): Value { if v.Number? then Text(Decimal(v.n)) else v }

  function NormalAll(values: seq<Value>): (r: seq<Value>)
    ensures |r| == |values|
    ensures forall i :: 0 <= i < |values| ==> r[i] == Normal(values[i])
  {
    if values == [] then [] else [Normal(values[0])] + NormalAll(values[1..])
  }

  // ---- encoding ----

  function Escape(s: string): string {
    if s == [] then []
    else (if s[0] == '"' || s[0] == '\\' then ['\\', s[0]] else [s[0]]) + Escape(s[1..])
  }

  function Quoted(s: string): string { "\"" + Escape(s) + "\"" }

  function EncodeValue(v: Value): string {
    match v
    case Number(n) => Quoted(Decimal(n))
    case Text(s) => Quoted(s)
    case Flag(b) => if b then "true" else "false"
  }

  /** `["name",value]` for each field, comma separated. */
  function EncodeFields(fields: seq<Field>, values: seq<Value>): string
    requires |fields| == |values|
  {
    if fields == [] then ""
    else EncodeField(fields[0], values[0]) + (Separator(fields) + EncodeFields(fields[1..], values[1..]))
  }

  function Separator(fields: seq<Field>): string { if |fields| == 1 then "" else "," }

  function EncodeField(f: Field, v: Value): string { "[" + Quoted(f.name) + "," + EncodeValue(v) + "]" }

  const MESSAGE_PREFIX := "QuantaSwap Protocol V2\0"

  const DOMAIN_KEYS: seq<Field> := [
    Field("name", Ascii), Field("version", Ascii), Field("ethChainId", Ascii), Field("ethHtlc", Ascii),
    Field("qrlChainId", Ascii), Field("qrlGenesisHash", Ascii), Field("qrlHtlc", Ascii)]

  /** The two field lists that follow the type. */
  function Body(keys: seq<Field>, domain: seq<Value>, fields: seq<Field>, values: seq<Value>): string
    requires |keys| == |domain| && |fields| == |values|
  {
    ",[" + (EncodeFields(keys, domain) + ("],[" + (EncodeFields(fields, values) + "]]")))
  }

  const MESSAGE_HEAD := MESSAGE_PREFIX + "[\"2\","

  /** The message for one deployment; `domain` is the deployment's own value list. */
  function MessageBytes(domain: seq<Value>, t: PrimaryType, values: seq<Value>): string
    requires Accepted(DOMAIN_KEYS, domain) && Accepted(Schema(t), values)
  {
    MESSAGE_HEAD + (TypeTag(t) + Body(DOMAIN_KEYS, domain, Schema(t), values))
  }

  // ---- decoding ----

  /** The rest after an expected literal. */
  function Strip(prefix: string, s: string): Option<string> {
    if prefix <= s then Some(s[|prefix|..]) else None
  }

  /** The string up to the closing quote, unescaped, and the rest after that quote. */
  function Unquote(s: string): Option<(string, string)> {
    if s == [] then None
    else if s[0] == '"' then Some(([], s[1..]))
    else if s[0] == '\\' then
      if |s| == 1 then None else
        var r := Unquote(s[2..]);
        if r.None? then None else Some(([s[1]] + r.value.0, r.value.1))
    else
      var r := Unquote(s[1..]);
      if r.None? then None else Some(([s[0]] + r.value.0, r.value.1))
  }

  function DecodeValue(kind: FieldType, s: string): Option<(Value, string)> {
    if kind.Bool? then
      if Strip("true", s).Some? then Some((Flag(true), Strip("true", s).value))
      else if Strip("false", s).Some? then Some((Flag(false), Strip("false", s).value))
      else None
    else if Strip("\"", s).None? then None
    else
      var r := Unquote(Strip("\"", s).value);
      if r.None? then None else Some((Text(r.value.0), r.value.1))
  }

  function DecodeField(f: Field, s: string): Option<(Value, string)> {
    var head := Strip("[" + Quoted(f.name) + ",", s);
    if head.None? then None else
      var v := DecodeValue(f.kind, head.value);
      if v.None? then None else
        var tail := Strip("]", v.value.1);
        if tail.None? then None else Some((v.value.0, tail.value))
  }

  function DecodeFields(fields: seq<Field>, s: string): Option<(seq<Value>, string)> {
    if fields == [] then Some(([], s)) else
      var v := DecodeField(fields[0], s);
      if v.None? then None else
        var rest := Strip(Separator(fields), v.value.1);
        if rest.None? then None else
          var vs := DecodeFields(fields[1..], rest.value);
          if vs.None? then None else Some(([v.value.0] + vs.value.0, vs.value.1))
  }

  function DecodeType(s: string): Option<(PrimaryType, string)> {
    if Strip(TypeTag(OrderV2), s).Some? then Some((OrderV2, Strip(TypeTag(OrderV2), s).value))
    else if Strip(TypeTag(FillIntentV2), s).Some? then Some((FillIntentV2, Strip(TypeTag(FillIntentV2), s).value))
    else if Strip(TypeTag(FillV2), s).Some? then Some((FillV2, Strip(TypeTag(FillV2), s).value))
    else if Strip(TypeTag(CancelV2), s).Some? then Some((CancelV2, Strip(TypeTag(CancelV2), s).value))
    else None
  }

  /** An opening literal, then one field list, and the rest after it. */
  function DecodeList(opening: string, fields: seq<Field>, s: string): Option<(seq<Value>, string)> {
    var b := Strip(opening, s);
    if b.None? then None else DecodeFields(fields, b.value)
  }

  function DecodeBody(keys: seq<Field>, fields: seq<Field>, s: string): Option<(seq<Value>, seq<Value>)> {
    var d := DecodeList(",[", keys, s);
    if d.None? then None else
      var vs := DecodeList("],[", fields, d.value.1);
      if vs.None? || vs.value.1 != "]]" then None else Some((d.value.0, vs.value.0))
  }

  datatype Message = Message(primaryType: PrimaryType, domain: seq<Value>, values: seq<Value>)

  function DecodeMessage(s: string): Option<Message> {
    var a := Strip(MESSAGE_HEAD, s);
    if a.None? then None else
      var t := DecodeType(a.value);
      if t.None? then None else
        var b := DecodeBody(DOMAIN_KEYS, Schema(t.value.0), t.value.1);
        if b.None? then None else Some(Message(t.value.0, b.value.0, b.value.1))
  }

  // ---- the decoder undoes the encoder ----

  lemma StripPrefix(prefix: string, rest: string)
    ensures Strip(prefix, prefix + rest) == Some(rest)
  {
  }

  /** The decoder reads back one escaped character. */
  lemma UnquoteOne(c: char, tail: string)
    requires Unquote(tail).Some?
    ensures var r := Unquote(tail).value;
      Unquote((if c == '"' || c == '\\' then ['\\', c] else [c]) + tail) == Some(([c] + r.0, r.1))
  {
    if c == '"' || c == '\\' {
      var s := ['\\', c] + tail;
      assert s[0] == '\\' && s[1] == c && s[2..] == tail;
    } else {
      var s := [c] + tail;
      assert s[0] == c && s[1..] == tail;
    }
  }

  /** Every printable string survives, quotes and backslashes included. */
  lemma {:induction false} UnquoteEscape(s: string, rest: string)
    ensures Unquote(Escape(s) + "\"" + rest) == Some((s, rest))
  {
    if s == [] {
      assert Escape(s) + "\"" + rest == "\"" + rest;
    } else {
      UnquoteEscape(s[1..], rest);
      var tail := Escape(s[1..]) + "\"" + rest;
      UnquoteOne(s[0], tail);
      var head := if s[0] == '"' || s[0] == '\\' then ['\\', s[0]] else [s[0]];
      assert Escape(s) + "\"" + rest == head + tail;
      assert [s[0]] + s[1..] == s;
    }
  }

  lemma DecodeEncodedValue(kind: FieldType, v: Value, rest: string)
    requires ValueOk(kind, v)
    ensures DecodeValue(kind, EncodeValue(v) + rest) == Some((Normal(v), rest))
  {
    if v.Flag? {
      StripPrefix(EncodeValue(v), rest);
      if !v.b {
        assert (EncodeValue(v) + rest)[0] == 'f';
      }
    } else {
      var text := if v.Number? then Decimal(v.n) else v.s;
      assert EncodeValue(v) + rest == "\"" + (Escape(text) + "\"" + rest);
      StripPrefix("\"", Escape(text) + "\"" + rest);
      UnquoteEscape(text, rest);
    }
  }

  lemma DecodeEncodedField(f: Field, v: Value, rest: string)
    requires ValueOk(f.kind, v)
    ensures DecodeField(f, EncodeField(f, v) + rest) == Some((Normal(v), rest))
  {
    var head := "[" + Quoted(f.name) + ",";
    var body := EncodeValue(v) + ("]" + rest);
    assert EncodeField(f, v) + rest == head + body;
    StripPrefix(head, body);
    DecodeEncodedValue(f.kind, v, "]" + rest);
    StripPrefix("]", rest);
  }

  lemma {:induction false} DecodeEncodedFields(fields: seq<Field>, values: seq<Value>, rest: string)
    requires Accepted(fields, values)
    ensures DecodeFields(fields, EncodeFields(fields, values) + rest) == Some((NormalAll(values), rest))
  {
    if fields == [] {
      assert EncodeFields(fields, values) + rest == rest;
    } else {
      var first, others := EncodeField(fields[0], values[0]), EncodeFields(fields[1..], values[1..]);
      DecodeEncodedFields(fields[1..], values[1..], rest);
      assert EncodeFields(fields, values) + rest == first + (Separator(fields) + (others + rest));
      DecodeEncodedField(fields[0], values[0], Separator(fields) + (others + rest));
      StripPrefix(Separator(fields), others + rest);
    }
  }

  lemma Mismatch(prefix: string, s: string, at: nat)
    requires at < |prefix| && at < |s| && prefix[at] != s[at]
    ensures Strip(prefix, s).None?
  {
  }

  lemma DecodeEncodedType(t: PrimaryType, rest: string)
    ensures DecodeType(TypeTag(t) + rest) == Some((t, rest))
  {
    var s := TypeTag(t) + rest;
    StripPrefix(TypeTag(t), rest);
    if t != OrderV2 { Mismatch(TypeTag(OrderV2), s, 1); }
    if t == FillV2 { Mismatch(TypeTag(FillIntentV2), s, 5); }
    if t == CancelV2 {
      Mismatch(TypeTag(FillIntentV2), s, 1);
      Mismatch(TypeTag(FillV2), s, 1);
    }
  }

  lemma ListRoundTrip(opening: string, fields: seq<Field>, values: seq<Value>, rest: string)
    requires Accepted(fields, values)
    ensures DecodeList(opening, fields, opening + (EncodeFields(fields, values) + rest))
         == Some((NormalAll(values), rest))
  {
    StripPrefix(opening, EncodeFields(fields, values) + rest);
    DecodeEncodedFields(fields, values, rest);
  }

  lemma BodyRoundTrip(keys: seq<Field>, domain: seq<Value>, fields: seq<Field>, values: seq<Value>)
    requires Accepted(keys, domain) && Accepted(fields, values)
    ensures DecodeBody(keys, fields, Body(keys, domain, fields, values)) == Some((NormalAll(domain), NormalAll(values)))
  {
    var tail := "],[" + (EncodeFields(fields, values) + "]]");
    ListRoundTrip(",[", keys, domain, tail);
    ListRoundTrip("],[", fields, values, "]]");
  }

  /** The bytes determine the primary type and every field value. */
  lemma MessageRoundTrip(domain: seq<Value>, t: PrimaryType, values: seq<Value>)
    requires Accepted(DOMAIN_KEYS, domain) && Accepted(Schema(t), values)
    ensures DecodeMessage(MessageBytes(domain, t, values)) == Some(Message(t, NormalAll(domain), NormalAll(values)))
  {
    var body := Body(DOMAIN_KEYS, domain, Schema(t), values);
    StripPrefix(MESSAGE_HEAD, TypeTag(t) + body);
    DecodeEncodedType(t, body);
    BodyRoundTrip(DOMAIN_KEYS, domain, Schema(t), values);
  }

  /** Two accepted payloads share their bytes only if they share type and values, up
      to writing an integer as a number or as its decimal text... */
  lemma MessagesAreInjective(domain: seq<Value>, t: PrimaryType, values: seq<Value>,
                             domain': seq<Value>, t': PrimaryType, values': seq<Value>)
    requires Accepted(DOMAIN_KEYS, domain) && Accepted(Schema(t), values)
    requires Accepted(DOMAIN_KEYS, domain') && Accepted(Schema(t'), values')
    requires MessageBytes(domain, t, values) == MessageBytes(domain', t', values')
    ensures t == t' && NormalAll(domain) == NormalAll(domain') && NormalAll(values) == NormalAll(values')
  {
    var s := MessageBytes(domain, t, values);
    Decodes(domain, t, values, s);
    Decodes(domain', t', values', s);
    OneMeaning(s, domain, t, values, domain', t', values');
  }

  lemma OneMeaning(s: string, domain: seq<Value>, t: PrimaryType, values: seq<Value>,
                   domain': seq<Value>, t': PrimaryType, values': seq<Value>)
    requires DecodeMessage(s) == Some(Message(t, NormalAll(domain), NormalAll(values)))
    requires DecodeMessage(s) == Some(Message(t', NormalAll(domain'), NormalAll(values')))
    ensures t == t' && NormalAll(domain) == NormalAll(domain') && NormalAll(values) == NormalAll(values')
  {
  }

  lemma Decodes(domain: seq<Value>, t: PrimaryType, values: seq<Value>, s: string)
    requires Accepted(DOMAIN_KEYS, domain) && Accepted(Schema(t), values) && s == MessageBytes(domain, t, values)
    ensures DecodeMessage(s) == Some(Message(t, NormalAll(domain), NormalAll(values)))
  {
    MessageRoundTrip(domain, t, values);
  }

  /** ... and that form is indeed irrelevant to the bytes. */
  lemma FormIsIrrelevant(domain: seq<Value>, t: PrimaryType, values: seq<Value>, values': seq<Value>)
    requires Accepted(DOMAIN_KEYS, domain) && Accepted(Schema(t), values) && Accepted(Schema(t), values')
    requires NormalAll(values) == NormalAll(values')
    ensures MessageBytes(domain, t, values) == MessageBytes(domain, t, values')
  {
    var fields := Schema(t);
    BodyIgnoresForm(DOMAIN_KEYS, domain, fields, values);
    BodyIgnoresForm(DOMAIN_KEYS, domain, fields, values');
  }

  lemma BodyIgnoresForm(keys: seq<Field>, domain: seq<Value>, fields: seq<Field>, values: seq<Value>)
    requires |keys| == |domain| && |fields| == |values|
    ensures Body(keys, domain, fields, values) == Body(keys, NormalAll(domain), fields, NormalAll(values))
  {
    EncodingIgnoresForm(keys, domain);
    EncodingIgnoresForm(fields, values);
  }

  lemma {:induction false} EncodingIgnoresForm(fields: seq<Field>, values: seq<Value>)
    requires |fields| == |values|
    ensures EncodeFields(fields, values) == EncodeFields(fields, NormalAll(values))
  {
    if fields != [] {
      EncodingIgnoresForm(fields[1..], values[1..]);
      assert NormalAll(values)[1..] == NormalAll(values[1..]);
    }
  }

  /** On an integer field, equal normal forms are equal integers. */
  lemma NormalFormIsTheInteger(bits: nat, v: Value, w: Value)
    requires ValueOk(Uint(bits), v) && ValueOk(Uint(bits), w)
    ensures Normal(v) == Normal(w) <==>
      (if v.Number? then v.n else UintValue(v.s)) == (if w.Number? then w.n else UintValue(w.s))
  {
    if v.Number? { DecimalIsCanonical(v.n); } else { CanonicalIsDecimal(v.s); }
    if w.Number? { DecimalIsCanonical(w.n); } else { CanonicalIsDecimal(w.s); }
  }
}
