/**
 * The QRVM-512 ABI codec (qrvmHtlc.ts). Every argument and every return field is one
 * 64-byte word, 128 hex characters: a uint256 sits in the low half, a bytes32 in the
 * high half, an address fills the word.
 */
module Qrvm {
  import opened Common

  // ---- hexadecimal ----

  predicate IsLowerHex(c: char) { 48 <= c as int <= 57 || 97 <= c as int <= 102 }

  predicate IsUpperHex(c: char) { 65 <= c as int <= 70 }

  predicate IsHex(c: char) { IsLowerHex(c) || IsUpperHex(c) }

  predicate AllLowerHex(s: string) { forall i :: 0 <= i < |s| ==> IsLowerHex(s[i]) }

  predicate AllHex(s: string) { forall i :: 0 <= i < |s| ==> IsHex(s[i]) }

  function LowerChar(c: char): char { if IsUpperHex(c) then (c as int + 32) as char else c }

  function Lower(s: string): (r: string)
    ensures |r| == |s| && forall i :: 0 <= i < |s| ==> r[i] == LowerChar(s[i])
    ensures AllHex(s) ==> AllLowerHex(r)
  {
    seq(|s|, i requires 0 <= i < |s| => LowerChar(s[i]))
  }

  function HexDigit(d: nat): char requires d < 16 { if d < 10 then (d + 48) as char else (d + 87) as char }

  function DigitValue(c: char): (d: nat)
    requires IsLowerHex(c)
    ensures d < 16 && HexDigit(d) == c
  {
    if c as int <= 57 then c as int - 48 else c as int - 87
  }

  function Pow16(n: nat): (r: nat)
    ensures r >= 1
  {
    if n == 0 then 1 else 16 * Pow16(n - 1)
  }

  /** `BigInt("0x" + s)` */
  function Value(s: string): nat
    requires AllLowerHex(s)
  {
    if s == [] then 0 else 16 * Value(s[..|s| - 1]) + DigitValue(s[|s| - 1])
  }

  /** `n.toString(16)` */
  function Hex(n: nat): string {
    if n < 16 then [HexDigit(n)] else Hex(n / 16) + [HexDigit(n % 16)]
  }

  function Zeros(n: nat): (s: string)
    ensures |s| == n && forall i :: 0 <= i < n ==> s[i] == '0'
  {
    if n == 0 then "" else Zeros(n - 1) + "0"
  }

  function PadStart(s: string, width: nat): string { if |s| >= width then s else Zeros(width - |s|) + s }

  /** The low `width` hex digits of `n`. */
  function Digits(n: nat, width: nat): (s: string)
    ensures |s| == width && AllLowerHex(s)
  {
    if width == 0 then "" else Digits(n / 16, width - 1) + [HexDigit(n % 16)]
  }

  lemma {:induction false} DigitsOfSmall(n: nat, width: nat, zeros: nat)
    requires n < Pow16(width)
    ensures Digits(n, width + zeros) == Zeros(zeros) + Digits(n, width)
  {
    if width > 0 {
      DigitsOfSmall(n / 16, width - 1, zeros);
    } else if zeros > 0 {
      DigitsOfSmall(0, 0, zeros - 1);
      assert Digits(0, zeros) == Digits(0, zeros - 1) + ['0'];
    }
  }

  /** Padding the minimal text is the same as writing fixed-width digits. */
  lemma {:induction false} PaddedHexIsDigits(n: nat, width: nat)
    requires n < Pow16(width) && width > 0
    ensures |Hex(n)| <= width && PadStart(Hex(n), width) == Digits(n, width)
  {
    if n < 16 {
      DigitsOfSmall(n, 1, width - 1);
      assert Digits(n, 1) == Digits(n / 16, 0) + [HexDigit(n % 16)];
      assert Digits(n, 1) == Hex(n);
    } else {
      assert Pow16(1) == 16;
      PaddedHexIsDigits(n / 16, width - 1);
      assert Zeros(width - |Hex(n)|) + (Hex(n / 16) + [HexDigit(n % 16)])
          == (Zeros(width - |Hex(n)|) + Hex(n / 16)) + [HexDigit(n % 16)];
    }
  }

  lemma {:induction false} ValueOfDigits(n: nat, width: nat)
    requires n < Pow16(width)
    ensures Value(Digits(n, width)) == n
  {
    if width > 0 {
      ValueOfDigits(n / 16, width - 1);
      var s := Digits(n, width);
      assert s[..|s| - 1] == Digits(n / 16, width - 1);
      DigitInverse(n % 16);
    }
  }

  lemma DigitInverse(d: nat)
    requires d < 16
    ensures IsLowerHex(HexDigit(d)) && DigitValue(HexDigit(d)) == d
  {
  }

  lemma {:induction false} DigitsOfValue(s: string)
    requires AllLowerHex(s)
    ensures Value(s) < Pow16(|s|) && Digits(Value(s), |s|) == s
  {
    if s != [] {
      var front, d := s[..|s| - 1], DigitValue(s[|s| - 1]);
      DigitsOfValue(front);
      Sixteen(Value(front), d);
      assert s == front + [s[|s| - 1]];
    }
  }

  lemma Sixteen(n: nat, d: nat)
    requires d < 16
    ensures (16 * n + d) / 16 == n && (16 * n + d) % 16 == d
  {
  }

  // ---- words ----

  const WORD := 128
  const HALF := 64

  /** 2^256 */
  const UINT_LIMIT: nat := 0x1_0000_0000_0000_0000_0000_0000_0000_0000_0000_0000_0000_0000_0000_0000_0000_0000

  type Word = string

  predicate IsWord(w: Word) { |w| == WORD && AllLowerHex(w) }

  function EncodeUint(n: nat): Option<Word> {
    if n >= UINT_LIMIT then None else Some(PadStart(Hex(n), WORD))
  }

  /** `value` is the text after `0x`. */
  function EncodeBytes32(value: string): Option<Word> {
    if |value| != HALF || !AllHex(value) then None else Some(Lower(value) + Zeros(WORD - HALF))
  }

  function DecodeUint(w: Word): Option<nat>
    requires IsWord(w)
  {
    if w[..HALF] == Zeros(HALF) then Some(Value(w)) else None
  }

  function DecodeBytes32(w: Word): Option<string>
    requires IsWord(w)
  {
    if w[HALF..] == Zeros(HALF) then Some(w[..HALF]) else None
  }

  lemma PowDouble(m: nat, n: nat)
    requires n == 2 * m
    ensures Pow16(n) == Pow16(m) * Pow16(m)
  {
    PowAdd(m, m);
  }

  lemma {:induction false} PowAdd(a: nat, b: nat)
    ensures Pow16(a + b) == Pow16(a) * Pow16(b)
  {
    if a > 0 {
      PowAdd(a - 1, b);
      assert Pow16(a) * Pow16(b) == 16 * (Pow16(a - 1) * Pow16(b));
    }
  }

  /** Sixty-four hex digits are exactly 256 bits. The width is a variable so that the
      power is never unrolled. */
  lemma LimitIsPower(half: nat)
    requires half == HALF
    ensures Pow16(half) == UINT_LIMIT
  {
    var d32, d16, d8, d4 := half / 2, half / 4, half / 8, half / 16;
    assert Pow16(d4) == 0x1_0000;
    PowDouble(d4, d8);
    PowDouble(d8, d16);
    PowDouble(d16, d32);
    PowDouble(d32, half);
  }

  /** Padding to a word is writing a word of digits whose upper half is zero. */
  lemma PaddedWord(n: nat, half: nat, word: nat)
    requires n < Pow16(half) && word == half + half && half > 0
    ensures PadStart(Hex(n), word) == Digits(n, word) && Digits(n, word) == Zeros(half) + Digits(n, half)
    ensures Value(Digits(n, word)) == n
  {
    PowGrows(half, word);
    PaddedHexIsDigits(n, word);
    DigitsOfSmall(n, half, half);
    ValueOfDigits(n, word);
  }

  lemma EncodedUint(n: nat)
    requires n < UINT_LIMIT
    ensures EncodeUint(n) == Some(Digits(n, WORD)) && Digits(n, WORD) == Zeros(HALF) + Digits(n, HALF)
    ensures Value(Digits(n, WORD)) == n
  {
    var half: nat, word: nat :| half == HALF && word == WORD;
    LimitIsPower(half);
    PaddedWord(n, half, word);
  }

  lemma DecodedUint(w: Word)
    requires IsWord(w) && w[..HALF] == Zeros(HALF)
    ensures Value(w) < UINT_LIMIT && Digits(Value(w), WORD) == w
  {
    var half: nat :| half == HALF;
    var low := w[half..];
    DigitsOfValue(low);
    LimitIsPower(half);
    EncodedUint(Value(low));
    assert w == Zeros(HALF) + low;
  }

  /** A word decodes to n exactly when it is the encoding of n. */
  lemma UintWordsAreCanonical(w: Word, n: nat)
    requires IsWord(w)
    ensures DecodeUint(w) == Some(n) <==> EncodeUint(n) == Some(w)
  {
    if DecodeUint(w) == Some(n) {
      DecodedUint(w);
      EncodedUint(n);
    }
    if EncodeUint(n) == Some(w) {
      EncodedUint(n);
      assert (Zeros(HALF) + Digits(n, HALF))[..HALF] == Zeros(HALF);
    }
  }

  lemma {:induction false} PowGrows(a: nat, b: nat)
    requires a <= b
    ensures Pow16(a) <= Pow16(b)
  {
    if a < b { PowGrows(a, b - 1); }
  }

  lemma Bytes32WordsAreCanonical(w: Word, value: string)
    requires IsWord(w)
    ensures DecodeBytes32(w) == Some(value) <==> AllLowerHex(value) && EncodeBytes32(value) == Some(w)
  {
    if DecodeBytes32(w) == Some(value) {
      assert Lower(value) == value;
      assert w == w[..HALF] + w[HALF..];
    }
    if AllLowerHex(value) && EncodeBytes32(value) == Some(w) {
      assert Lower(value) == value;
    }
  }

  // ---- calls ----

  datatype Method =
    | LockNative | LockNativeOpen | Assign | Release | Claim | Refund | GetSwap | Withdraw | WithdrawAll
    | PushCredit | CreditOf | OutstandingCredit | DeliveryGasPolicy

  datatype Kind = Bytes32Kind | AddressKind | UintKind

  /** An argument; an address is its canonical 64-byte word, checksum already verified. */
  datatype Arg = Bytes32Arg(hex: string) | AddressArg(word: Word) | UintArg(n: int)

  function Kinds(m: Method): seq<Kind> {
    match m
    case LockNative => [Bytes32Kind, AddressKind, UintKind]
    case LockNativeOpen => [Bytes32Kind, UintKind]
    case Assign => [Bytes32Kind, AddressKind]
    case Claim => [Bytes32Kind, Bytes32Kind]
    case Release | Refund | GetSwap => [Bytes32Kind]
    case Withdraw => [AddressKind, AddressKind, UintKind]
    case WithdrawAll | PushCredit | CreditOf => [AddressKind, AddressKind]
    case OutstandingCredit => [AddressKind]
    case DeliveryGasPolicy => []
  }

  function EncodeArg(k: Kind, a: Arg): (w: Option<Word>)
    ensures w.Some? ==> IsWord(w.value)
  {
    match (k, a)
    case (Bytes32Kind, Bytes32Arg(hex)) => EncodeBytes32(hex)
    case (AddressKind, AddressArg(word)) => if IsWord(word) then Some(word) else None
    case (UintKind, UintArg(n)) =>
      if n < 0 || n >= UINT_LIMIT then None else
        EncodedUint(n); EncodeUint(n)
    case _ => None
  }

  function EncodeArgs(ks: seq<Kind>, args: seq<Arg>): (r: Option<string>)
    ensures r.Some? ==> |args| == |ks| && |r.value| == WORD * |ks| && AllLowerHex(r.value)
  {
    if |args| != |ks| then None
    else if ks == [] then Some("")
    else
      var w, ws := EncodeArg(ks[0], args[0]), EncodeArgs(ks[1..], args[1..]);
      if w.None? || ws.None? then None else Some(w.value + ws.value)
  }

  /** Every integer below 2^256 is encoded, zero included, every 32-byte text in either
      case, and every canonical address word; nothing else is. */
  lemma ArgsEncodeExactly(k: Kind, a: Arg)
    ensures EncodeArg(k, a).Some? <==>
      || (k.UintKind? && a.UintArg? && 0 <= a.n && a.n <= UINT_LIMIT - 1)
      || (k.Bytes32Kind? && a.Bytes32Arg? && |a.hex| == 64 && forall c :: c in a.hex ==> HexCharacter(c))
      || (k.AddressKind? && a.AddressArg? && |a.word| == 128 && AllLowerHex(a.word))
  {
    if a.Bytes32Arg? { HexAlphabet(a.hex); }
  }

  predicate HexCharacter(c: char) { c in "0123456789abcdefABCDEF" }

  /** Hexadecimal text is text over those twenty-two characters, and reading it lower-cased
      changes no value. */
  lemma HexAlphabet(s: string)
    ensures AllHex(s) <==> forall c :: c in s ==> HexCharacter(c)
    ensures AllHex(s) ==> AllLowerHex(Lower(s))
  {
    forall c: char ensures IsHex(c) <==> HexCharacter(c) { OneCharacter(c); }
    if AllHex(s) {
      forall c | c in s ensures HexCharacter(c) {
        var i :| 0 <= i < |s| && s[i] == c;
      }
    }
    if forall c :: c in s ==> HexCharacter(c) {
      forall i | 0 <= i < |s| ensures IsHex(s[i]) {
        assert s[i] in s;
      }
    }
  }

  lemma OneCharacter(c: char)
    ensures IsHex(c) <==> HexCharacter(c)
  {
    var digits, lower, upper := "0123456789", "abcdef", "ABCDEF";
    assert "0123456789abcdefABCDEF" == digits + lower + upper;
    assert c in digits <==> 48 <= c as int <= 57;
    assert c in lower <==> 97 <= c as int <= 102;
    assert c in upper <==> 65 <= c as int <= 70;
  }

  /** A result means the same in either case. */
  lemma CaseIsIrrelevant(raw: string, count: nat)
    requires Words(raw, count).Some?
    ensures Words(Lower(raw), count) == Words(raw, count)
    ensures DecodeUints(Lower(raw), count) == DecodeUints(raw, count)
  {
    var text := Words(raw, count).value;
    assert Lower(raw)[2..] == text && Lower(raw)[..2] == "0x" && Lower(text) == text;
    assert Lower(Lower(raw)) == "0x" + text;
  }

  /** `selector` is the ten-character method id, a hash this model leaves open. */
  function EncodeCall(selector: Method -> string, m: Method, args: seq<Arg>): Option<string> {
    var words := EncodeArgs(Kinds(m), args);
    if words.None? then None else Some(selector(m) + words.value)
  }

  /** What an argument means once encoded: hex case does not matter. */
  function Canonical(a: Arg): Arg { if a.Bytes32Arg? then Bytes32Arg(Lower(a.hex)) else a }

  lemma ArgWordsAreInjective(k: Kind, a: Arg, b: Arg)
    requires EncodeArg(k, a).Some? && EncodeArg(k, a) == EncodeArg(k, b)
    ensures Canonical(a) == Canonical(b)
  {
    var w := EncodeArg(k, a).value;
    match k
    case Bytes32Kind =>
      assert Lower(a.hex) == w[..HALF] == Lower(b.hex);
    case AddressKind =>
    case UintKind =>
      UintWordsAreCanonical(w, a.n);
      UintWordsAreCanonical(w, b.n);
  }

  lemma {:induction false} ArgsAreInjective(ks: seq<Kind>, args: seq<Arg>, args': seq<Arg>)
    requires EncodeArgs(ks, args).Some? && EncodeArgs(ks, args) == EncodeArgs(ks, args')
    ensures |args| == |args'| == |ks|
    ensures forall i :: 0 <= i < |ks| ==> Canonical(args[i]) == Canonical(args'[i])
  {
    if ks != [] {
      var text := EncodeArgs(ks, args).value;
      assert text[..WORD] == EncodeArg(ks[0], args[0]).value;
      assert text[..WORD] == EncodeArg(ks[0], args'[0]).value;
      assert text[WORD..] == EncodeArgs(ks[1..], args[1..]).value;
      assert text[WORD..] == EncodeArgs(ks[1..], args'[1..]).value;
      ArgWordsAreInjective(ks[0], args[0], args'[0]);
      ArgsAreInjective(ks[1..], args[1..], args'[1..]);
      forall i | 0 <= i < |ks| ensures Canonical(args[i]) == Canonical(args'[i]) {
        if i > 0 { assert args[i] == args[1..][i - 1] && args'[i] == args'[1..][i - 1]; }
      }
    }
  }

  /** Equal calldata for one method means equal arguments. */
  lemma CallsAreInjective(selector: Method -> string, m: Method, args: seq<Arg>, args': seq<Arg>)
    requires EncodeCall(selector, m, args).Some?
    requires EncodeCall(selector, m, args) == EncodeCall(selector, m, args')
    ensures |args| == |args'| && forall i :: 0 <= i < |args| ==> Canonical(args[i]) == Canonical(args'[i])
  {
    var a, b := EncodeArgs(Kinds(m), args).value, EncodeArgs(Kinds(m), args').value;
    assert (selector(m) + a)[|selector(m)|..] == a;
    assert (selector(m) + b)[|selector(m)|..] == b;
    ArgsAreInjective(Kinds(m), args, args');
  }

  // ---- results ----

  /** A raw result of exactly `count` words: the lower-cased text after `0x`. */
  function Words(raw: string, count: nat): (r: Option<string>)
    ensures r.Some? ==> |r.value| == WORD * count && AllLowerHex(r.value) && Lower(raw) == "0x" + r.value
  {
    if |raw| == 2 + WORD * count && raw[..2] == "0x" && AllHex(raw[2..]) then
      var text := Lower(raw[2..]);
      assert Lower(raw) == "0x" + text;
      Some(text)
    else None
  }

  function WordAt(text: string, i: nat): (w: Word)
    requires AllLowerHex(text) && WORD * (i + 1) <= |text|
    ensures IsWord(w)
  {
    text[WORD * i..WORD * (i + 1)]
  }

  function ReadUints(text: string): (r: Option<seq<nat>>)
    requires AllLowerHex(text) && |text| % WORD == 0
    decreases |text|
  {
    if text == "" then Some([]) else
      var n, ns := DecodeUint(text[..WORD]), ReadUints(text[WORD..]);
      if n.None? || ns.None? then None else Some([n.value] + ns.value)
  }

  function DecodeUints(raw: string, count: nat): Option<seq<nat>> {
    var text := Words(raw, count);
    if text.None? then None else ReadUints(text.value)
  }

  function WriteUints(ns: seq<nat>): Option<string> {
    if ns == [] then Some("") else
      var w, ws := EncodeUint(ns[0]), WriteUints(ns[1..]);
      if w.None? || ws.None? then None else Some(w.value + ws.value)
  }

  lemma {:induction false} ReadWriteUints(text: string, ns: seq<nat>)
    requires AllLowerHex(text) && |text| % WORD == 0
    ensures ReadUints(text) == Some(ns) <==> WriteUints(ns) == Some(text)
    decreases |text|
  {
    if text == "" {
      if ns != [] && WriteUints(ns).Some? {
        UintWordWidth(ns[0]);
      }
    } else if ns != [] {
      UintWordsAreCanonical(text[..WORD], ns[0]);
      ReadWriteUints(text[WORD..], ns[1..]);
      ReadsFirst(text, ns);
      WritesFirst(text, ns);
    }
  }

  /** Reading takes the first word for the first number. */
  lemma ReadsFirst(text: string, ns: seq<nat>)
    requires AllLowerHex(text) && |text| % WORD == 0 && text != "" && ns != []
    ensures ReadUints(text) == Some(ns) <==>
      DecodeUint(text[..WORD]) == Some(ns[0]) && ReadUints(text[WORD..]) == Some(ns[1..])
  {
    assert [ns[0]] + ns[1..] == ns;
  }

  /** Writing puts the first number into the first word. */
  lemma WritesFirst(text: string, ns: seq<nat>)
    requires |text| >= WORD && ns != []
    ensures WriteUints(ns) == Some(text) <==>
      EncodeUint(ns[0]) == Some(text[..WORD]) && WriteUints(ns[1..]) == Some(text[WORD..])
  {
    assert text == text[..WORD] + text[WORD..];
    if WriteUints(ns).Some? {
      UintWordWidth(ns[0]);
      var w, ws := EncodeUint(ns[0]).value, WriteUints(ns[1..]).value;
      assert (w + ws)[..WORD] == w && (w + ws)[WORD..] == ws;
    }
  }

  lemma UintWordWidth(n: nat)
    requires EncodeUint(n).Some?
    ensures IsWord(EncodeUint(n).value)
  {
    EncodedUint(n);
  }

  /** A result decodes to `ns` exactly when, lower-cased, it is the encoding of `ns`. */
  lemma UintResultsAreCanonical(raw: string, count: nat, ns: seq<nat>)
    requires Words(raw, count).Some?
    ensures DecodeUints(raw, count) == Some(ns) <==>
      WriteUints(ns).Some? && Lower(raw) == "0x" + WriteUints(ns).value
  {
    var text := Words(raw, count).value;
    ReadWriteUints(text, ns);
    assert ("0x" + text)[2..] == text;
    if WriteUints(ns).Some? {
      assert ("0x" + WriteUints(ns).value)[2..] == WriteUints(ns).value;
    }
  }

  // ---- getSwap ----

  const MAX_SAFE_INTEGER: nat := 9_007_199_254_740_991

  datatype Swap = Swap(
    initiator: Word, recipient: Word, token: Word, amount: nat, timeout: nat, status: nat, preimage: string)

  function DecodeSwap(raw: string): Option<Swap> {
    var text := Words(raw, 7);
    if text.None? then None else
      var amount, timeout, status :=
        DecodeUint(WordAt(text.value, 3)), DecodeUint(WordAt(text.value, 4)), DecodeUint(WordAt(text.value, 5));
      var preimage := DecodeBytes32(WordAt(text.value, 6));
      if amount.None? || timeout.None? || status.None? then None
      else if timeout.value > MAX_SAFE_INTEGER then None
      else if status.value > 3 then None
      else if preimage.None? then None
      else Some(Swap(WordAt(text.value, 0), WordAt(text.value, 1), WordAt(text.value, 2),
                     amount.value, timeout.value, status.value, preimage.value))
  }

  predicate ValidSwap(s: Swap) {
    && IsWord(s.initiator) && IsWord(s.recipient) && IsWord(s.token)
    && s.amount < UINT_LIMIT && s.timeout <= MAX_SAFE_INTEGER && s.status <= 3
    && |s.preimage| == HALF && AllLowerHex(s.preimage)
  }

  /** The seven words a contract returns for `s`. */
  function EncodeSwap(s: Swap): string
    requires ValidSwap(s)
  {
    "0x" + (s.initiator + (s.recipient + (s.token + (EncodeUint(s.amount).value + (EncodeUint(s.timeout).value
    + (EncodeUint(s.status).value + EncodeBytes32(s.preimage).value))))))
  }

  /** Seven words in a row, each at its own place. */
  lemma SevenWords(a: Word, b: Word, c: Word, d: Word, e: Word, f: Word, g: Word)
    requires IsWord(a) && IsWord(b) && IsWord(c) && IsWord(d) && IsWord(e) && IsWord(f) && IsWord(g)
    ensures var t := a + (b + (c + (d + (e + (f + g)))));
      && |t| == 7 * WORD && AllLowerHex(t)
      && t[..128] == a && t[128..256] == b && t[256..384] == c && t[384..512] == d
      && t[512..640] == e && t[640..768] == f && t[768..896] == g
  {
    var t6 := f + g;
    var t5 := e + t6;
    var t4 := d + t5;
    var t3 := c + t4;
    var t2 := b + t3;
    var t := a + t2;
    assert t[128..] == t2 && t[256..] == t3 && t[384..] == t4 && t[512..] == t5 && t[640..] == t6;
  }

  lemma SplitSeven(t: string)
    requires |t| == 7 * WORD
    ensures t == t[..128] + (t[128..256] + (t[256..384] + (t[384..512] + (t[512..640] + (t[640..768] + t[768..896])))))
  {
    assert t[640..] == t[640..768] + t[768..896];
    assert t[512..] == t[512..640] + t[640..];
    assert t[384..] == t[384..512] + t[512..];
    assert t[256..] == t[256..384] + t[384..];
    assert t[128..] == t[128..256] + t[256..];
    assert t == t[..128] + t[128..];
  }

  lemma SwapWords(s: Swap)
    requires ValidSwap(s)
    ensures IsWord(EncodeUint(s.amount).value) && IsWord(EncodeUint(s.timeout).value)
    ensures IsWord(EncodeUint(s.status).value) && IsWord(EncodeBytes32(s.preimage).value)
  {
    UintWordWidth(s.amount);
    UintWordWidth(s.timeout);
    UintWordWidth(s.status);
  }

  /** Decoding undoes encoding. */
  lemma DecodeEncodedSwap(s: Swap)
    requires ValidSwap(s)
    ensures DecodeSwap(EncodeSwap(s)) == Some(s)
  {
    SwapWords(s);
    var d, e, f, g := EncodeUint(s.amount).value, EncodeUint(s.timeout).value, EncodeUint(s.status).value,
                      EncodeBytes32(s.preimage).value;
    SevenWords(s.initiator, s.recipient, s.token, d, e, f, g);
    var text := s.initiator + (s.recipient + (s.token + (d + (e + (f + g)))));
    var raw := "0x" + text;
    assert raw[2..] == text && raw[..2] == "0x" && Lower(text) == text;
    assert Words(raw, 7) == Some(text);
    UintWordsAreCanonical(d, s.amount);
    UintWordsAreCanonical(e, s.timeout);
    UintWordsAreCanonical(f, s.status);
    Bytes32WordsAreCanonical(g, s.preimage);
  }

  /** Whatever is accepted is, lower-cased, exactly the re-encoding of what was read. */
  lemma AcceptedSwapsAreCanonical(raw: string)
    requires DecodeSwap(raw).Some?
    ensures ValidSwap(DecodeSwap(raw).value) && Lower(raw) == EncodeSwap(DecodeSwap(raw).value)
  {
    var s, text := DecodeSwap(raw).value, Words(raw, 7).value;
    UintWordsAreCanonical(WordAt(text, 3), s.amount);
    UintWordsAreCanonical(WordAt(text, 4), s.timeout);
    UintWordsAreCanonical(WordAt(text, 5), s.status);
    Bytes32WordsAreCanonical(WordAt(text, 6), s.preimage);
    SplitSeven(text);
  }
}
