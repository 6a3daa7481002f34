/** The shared secret that authenticates a push: what a token may be, how it travels, and
    how the server reads exactly one preamble and no byte more. */
module Auth {
  import opened Options
  import opened PktLine

  const AUTH_PKT_PREFIX: bytes := "git-full-send-auth-v1 "
  const MAX_TOKEN_LEN := 4096

  // ---- Tokens ------------------------------------------------------------------

  /** Unicode White_Space. */
  predicate IsWhitespace(c: char) {
    var n := c as int;
    || 0x09 <= n <= 0x0D || n == 0x20 || n == 0x85 || n == 0xA0 || n == 0x1680
    || 0x2000 <= n <= 0x200A || n == 0x2028 || n == 0x2029 || n == 0x202F || n == 0x205F || n == 0x3000
  }

  /** Unicode general category Cc. */
  predicate IsControl(c: char) {
    var n := c as int;
    n < 0x20 || 0x7F <= n < 0xA0
  }

  function TrimStart(s: string): string {
    if s != "" && IsWhitespace(s[0]) then TrimStart(s[1..]) else s
  }

  function TrimEnd(s: string): string {
    if s != "" && IsWhitespace(s[|s| - 1]) then TrimEnd(s[..|s| - 1]) else s
  }

  /** The UTF-8 encoding of one character. */
  function EncodeChar(c: char): (b: bytes)
    ensures 1 <= |b| <= 4
  {
    var n := c as int;
    if n < 0x80 then [n as char]
    else if n < 0x800 then [(0xC0 + n / 64) as char, (0x80 + n % 64) as char]
    else if n < 0x1_0000 then [(0xE0 + n / 4096) as char, (0x80 + n / 64 % 64) as char, (0x80 + n % 64) as char]
    else [(0xF0 + n / 262144) as char, (0x80 + n / 4096 % 64) as char,
          (0x80 + n / 64 % 64) as char, (0x80 + n % 64) as char]
  }

  function Utf8(s: string): bytes {
    if s == "" then [] else EncodeChar(s[0]) + Utf8(s[1..])
  }

  datatype AuthError = Empty | TooLong(len: nat) | NotPrintable

  /** A validated secret. */
  datatype Token = Token(text: string)

  ghost predicate ValidToken(t: Token) {
    && t.text != ""
    && |Utf8(t.text)| <= MAX_TOKEN_LEN
    && forall i | 0 <= i < |t.text| :: !IsWhitespace(t.text[i]) && !IsControl(t.text[i])
  }

  /** Validate a secret: trim it, then refuse it when empty, over-long, or holding
      whitespace or a control character, checked in that order. */
  function NewToken(value: string): (r: Result<Token, AuthError>)
    ensures r.Ok? ==> ValidToken(r.value)
  {
    var text := TrimEnd(TrimStart(value));
    if text == "" then Err(Empty)
    else if |Utf8(text)| > MAX_TOKEN_LEN then Err(TooLong(|Utf8(text)|))
    else if exists i | 0 <= i < |text| :: IsWhitespace(text[i]) || IsControl(text[i]) then Err(NotPrintable)
    else Ok(Token(text))
  }

  predicate Spaces(s: string) {
    forall i | 0 <= i < |s| :: IsWhitespace(s[i])
  }

  lemma {:induction false} TrimStartDropsSpaces(s: string) returns (lead: string)
    ensures s == lead + TrimStart(s) && Spaces(lead)
    ensures TrimStart(s) == "" || !IsWhitespace(TrimStart(s)[0])
  {
    lead := "";
    if s != "" && IsWhitespace(s[0]) {
      var rest := TrimStartDropsSpaces(s[1..]);
      lead := [s[0]] + rest;
    }
  }

  lemma {:induction false} TrimStartOfPadded(lead: string, s: string)
    requires Spaces(lead) && (s == "" || !IsWhitespace(s[0]))
    ensures TrimStart(lead + s) == s
  {
    if lead == "" {
      assert lead + s == s;
    } else {
      assert (lead + s)[1..] == lead[1..] + s;
      TrimStartOfPadded(lead[1..], s);
    }
  }

  lemma {:induction false} TrimEndOfPadded(s: string, trail: string)
    requires Spaces(trail) && (s == "" || !IsWhitespace(s[|s| - 1]))
    ensures TrimEnd(s + trail) == s
  {
    if trail == "" {
      assert s + trail == s;
    } else {
      assert (s + trail)[..|s + trail| - 1] == s + trail[..|trail| - 1];
      TrimEndOfPadded(s, trail[..|trail| - 1]);
    }
  }

  /** Exactly the printable, non-empty, short enough secrets are accepted, and each is
      accepted unchanged from any surrounding whitespace (a file written by `echo`). */
  lemma ValidTokensSurvivePadding(t: Token, lead: string, trail: string)
    requires ValidToken(t) && Spaces(lead) && Spaces(trail)
    ensures NewToken(lead + t.text + trail) == Ok(t)
  {
    assert lead + t.text + trail == lead + (t.text + trail);
    assert (t.text + trail)[0] == t.text[0];
    TrimStartOfPadded(lead, t.text + trail);
    TrimEndOfPadded(t.text, trail);
  }

  lemma {:induction false} TrimEndDropsSpaces(s: string) returns (trail: string)
    ensures s == TrimEnd(s) + trail && Spaces(trail)
    ensures TrimEnd(s) == "" || !IsWhitespace(TrimEnd(s)[|TrimEnd(s)| - 1])
  {
    trail := "";
    if s != "" && IsWhitespace(s[|s| - 1]) {
      var init := s[..|s| - 1];
      var rest := TrimEndDropsSpaces(init);
      trail := rest + [s[|s| - 1]];
      assert s == init + [s[|s| - 1]];
    }
  }

  /** `value` is `text` between two runs of whitespace, and `text` is not padded itself. */
  ghost predicate Pads(value: string, lead: string, text: string, trail: string) {
    && value == lead + text + trail && Spaces(lead) && Spaces(trail)
    && (text != "" ==> !IsWhitespace(text[0]) && !IsWhitespace(text[|text| - 1]))
  }

  /** Every value is some text between two runs of whitespace. */
  lemma HasPadding(value: string) returns (lead: string, text: string, trail: string)
    ensures Pads(value, lead, text, trail) && text == TrimEnd(TrimStart(value))
  {
    lead := TrimStartDropsSpaces(value);
    trail := TrimEndDropsSpaces(TrimStart(value));
    text := TrimEnd(TrimStart(value));
    assert TrimStart(value) == text + trail;
    assert value == lead + (text + trail) == lead + text + trail;
    if text != "" { assert text[0] == TrimStart(value)[0]; }
  }

  /** Trimming finds it: there is one such text, but for a value of whitespace alone. */
  lemma PaddingIsTrimmed(value: string, lead: string, text: string, trail: string)
    requires Pads(value, lead, text, trail)
    ensures TrimEnd(TrimStart(value)) == text
  {
    if text == "" {
      assert lead + text + trail == (lead + trail) + "";
      TrimStartOfPadded(lead + trail, "");
    } else {
      assert lead + text + trail == lead + (text + trail);
      assert (text + trail)[0] == text[0];
      TrimStartOfPadded(lead, text + trail);
      TrimEndOfPadded(text, trail);
    }
  }

  /** A value becomes a token exactly when it is that valid token between whitespace. */
  lemma AcceptedAsExactly(value: string, t: Token)
    ensures NewToken(value) == Ok(t) <==> ValidToken(t) && exists lead, trail :: Pads(value, lead, t.text, trail)
  {
    var lead, text, trail := HasPadding(value);
    if NewToken(value) == Ok(t) {
      assert Pads(value, lead, t.text, trail);
    }
    if ValidToken(t) && exists l, r :: Pads(value, l, t.text, r) {
      var l, r :| Pads(value, l, t.text, r);
      PaddingIsTrimmed(value, l, t.text, r);
    }
  }

  /** And each refusal says why: nothing but whitespace; else too many bytes; else some
      whitespace or control character inside. */
  lemma RefusedExactly(value: string, lead: string, text: string, trail: string)
    requires Pads(value, lead, text, trail)
    ensures NewToken(value) == Err(Empty) <==> Spaces(value)
    ensures NewToken(value) == Err(TooLong(|Utf8(text)|)) <==> !Spaces(value) && |Utf8(text)| > MAX_TOKEN_LEN
    ensures NewToken(value) == Err(NotPrintable) <==>
            && !Spaces(value) && |Utf8(text)| <= MAX_TOKEN_LEN
            && exists i | 0 <= i < |text| :: IsWhitespace(text[i]) || IsControl(text[i])
  {
    PaddingIsTrimmed(value, lead, text, trail);
    if text == "" {
      assert value == lead + trail;
    } else {
      assert value[|lead|] == text[0];
    }
  }

  // ---- Encoding is injective ---------------------------------------------------

  /** Two encodings that start the same stream encode the same character. */
  lemma EncodeCharIsPrefixFree(a: char, b: char, x: bytes, y: bytes)
    requires EncodeChar(a) + x == EncodeChar(b) + y
    ensures a == b && x == y
  {
    var s, t := EncodeChar(a) + x, EncodeChar(b) + y;
    assert s[0] == EncodeChar(a)[0] && t[0] == EncodeChar(b)[0];
    assert |EncodeChar(a)| == |EncodeChar(b)|;
    assert EncodeChar(a) == s[..|EncodeChar(a)|] == t[..|EncodeChar(b)|] == EncodeChar(b);
    EncodeCharInjective(a, b);
    assert x == s[|EncodeChar(a)|..] && y == t[|EncodeChar(b)|..];
  }

  lemma EncodeCharInjective(a: char, b: char)
    requires EncodeChar(a) == EncodeChar(b)
    ensures a == b
  {
    var m, n := a as int, b as int;
    var e, f := EncodeChar(a), EncodeChar(b);
    assert |e| == |f|;
    if |e| == 1 {
      assert e[0] == f[0];
    } else if |e| == 2 {
      assert e[0] == f[0] && e[1] == f[1];
    } else if |e| == 3 {
      assert e[0] == f[0] && e[1] == f[1] && e[2] == f[2];
      assert m / 64 == m / 64 / 64 * 64 + m / 64 % 64 && n / 64 == n / 64 / 64 * 64 + n / 64 % 64;
      assert m / 4096 == m / 64 / 64 && n / 4096 == n / 64 / 64;
    } else {
      assert e[0] == f[0] && e[1] == f[1] && e[2] == f[2] && e[3] == f[3];
      assert m / 262144 == m / 64 / 64 / 64 && n / 262144 == n / 64 / 64 / 64;
      assert m / 4096 == m / 64 / 64 && n / 4096 == n / 64 / 64;
    }
  }

  lemma {:induction false} Utf8Injective(a: string, b: string)
    requires Utf8(a) == Utf8(b)
    ensures a == b
  {
    if a != "" && b != "" {
      EncodeCharIsPrefixFree(a[0], b[0], Utf8(a[1..]), Utf8(b[1..]));
      Utf8Injective(a[1..], b[1..]);
      assert a == [a[0]] + a[1..] && b == [b[0]] + b[1..];
    }
  }

  /** The encoding of a printable secret holds no newline byte. */
  lemma {:induction false} Utf8HasNoNewline(s: string)
    requires forall i | 0 <= i < |s| :: !IsWhitespace(s[i])
    ensures '\n' !in Utf8(s)
  {
    if s != "" {
      assert '\n' !in EncodeChar(s[0]);
      Utf8HasNoNewline(s[1..]);
    }
  }

  // ---- Comparison --------------------------------------------------------------

  /** Bitwise exclusive or of two `bits`-bit numbers. */
  function Xor(a: nat, b: nat, bits: nat): (r: nat) {
    if bits == 0 then 0 else 2 * Xor(a / 2, b / 2, bits - 1) + (if a % 2 == b % 2 then 0 else 1)
  }

  /** Bitwise or of two `bits`-bit numbers. */
  function Or(a: nat, b: nat, bits: nat): (r: nat) {
    if bits == 0 then 0 else 2 * Or(a / 2, b / 2, bits - 1) + (if a % 2 == 1 || b % 2 == 1 then 1 else 0)
  }

  function Power2(n: nat): nat {
    if n == 0 then 1 else 2 * Power2(n - 1)
  }

  lemma {:induction false} XorZeroMeansEqual(a: nat, b: nat, bits: nat)
    requires a < Power2(bits) && b < Power2(bits)
    ensures Xor(a, b, bits) == 0 <==> a == b
    ensures Xor(a, b, bits) < Power2(bits)
  {
    if bits > 0 { XorZeroMeansEqual(a / 2, b / 2, bits - 1); }
  }

  lemma {:induction false} OrZeroMeansBothZero(a: nat, b: nat, bits: nat)
    requires a < Power2(bits) && b < Power2(bits)
    ensures Or(a, b, bits) == 0 <==> a == 0 && b == 0
    ensures Or(a, b, bits) < Power2(bits)
  {
    if bits > 0 { OrZeroMeansBothZero(a / 2, b / 2, bits - 1); }
  }

  /** Whether `presented` is the secret: every byte of the shorter is folded into `diff`,
      never stopping at the first difference. */
  method Matches(expected: bytes, presented: bytes) returns (same: bool)
    ensures same <==> presented == expected
  {
    var diff: nat := if |expected| != |presented| then 1 else 0;
    var shared := if |expected| < |presented| then |expected| else |presented|;
    assert Power2(8) == 256 by { assert Power2(4) == 16; }
    for i := 0 to shared
      invariant diff < 256
      invariant diff == 0 <==> |expected| == |presented| && expected[..i] == presented[..i]
    {
      var a, b := expected[i] as nat, presented[i] as nat;
      XorZeroMeansEqual(a, b, 8);
      OrZeroMeansBothZero(diff, Xor(a, b, 8), 8);
      assert expected[..i + 1] == expected[..i] + [expected[i]];
      assert presented[..i + 1] == presented[..i] + [presented[i]];
      diff := Or(diff, Xor(a, b, 8), 8);
    }
    same := diff == 0;
    assert |expected| == |presented| ==> expected[..shared] == expected && presented[..shared] == presented;
  }

  // ---- The preamble ------------------------------------------------------------

  /** Frame a payload as one pkt-line; the length counts its own four bytes. */
  function FrameLine(payload: bytes): (line: bytes)
    requires |payload| + 4 < 0x1_0000
    ensures |line| == |payload| + 4
  {
    FormatLength(|payload| + 4) + payload
  }

  function AuthPayload(t: Token): bytes {
    AUTH_PKT_PREFIX + Utf8(t.text) + "\n"
  }

  function AuthPkt(t: Token): bytes
    requires ValidToken(t)
  {
    FrameLine(AuthPayload(t))
  }

  datatype AuthOutcome = Accepted | Mismatch | Malformed | Absent

  /** The outcome for a complete payload. */
  function Judge(payload: bytes, expected: Token): AuthOutcome {
    if !(AUTH_PKT_PREFIX <= payload) then Malformed
    else
      var presented := payload[|AUTH_PKT_PREFIX|..];
      var bare :=
        if presented != [] && presented[|presented| - 1] == '\n'
        then presented[..|presented| - 1]
        else presented;
      if bare == Utf8(expected.text) then Accepted else Mismatch
  }

  /** What reading one preamble from `stream` decides, and what it leaves unread. A
      stream that runs out (or goes silent past the deadline) leaves nothing. */
  function ReadAuth(stream: bytes, expected: Token): (AuthOutcome, bytes) {
    if |stream| < 4 then (Absent, [])
    else
      match ParseLength(stream[..4])
      case None => (Malformed, stream[4..])
      case Some(len) =>
        if len < 5 || len > |AUTH_PKT_PREFIX| + MAX_TOKEN_LEN + 6 then (Malformed, stream[4..])
        else if |stream| < len then (Malformed, [])
        else (Judge(stream[4..len], expected), stream[len..])
  }

  /** Read one preamble and check it, consuming exactly its pkt-line. */
  method ReadAuthPkt(reader: Reader, expected: Token) returns (outcome: AuthOutcome)
    modifies reader
    ensures (outcome, reader.pending) == ReadAuth(old(reader.pending), expected)
  {
    ghost var stream := reader.pending;
    var header := reader.ReadExact(4);
    if header.None? { return Absent; }
    var len := ParseLength(header.value);
    if len.None? { return Malformed; }
    if !(5 <= len.value <= |AUTH_PKT_PREFIX| + MAX_TOKEN_LEN + 6) { return Malformed; }
    var payload := reader.ReadExact(len.value - 4);
    if payload.None? { return Malformed; }
    assert payload.value == stream[4..len.value] && reader.pending == stream[len.value..];
    if !(AUTH_PKT_PREFIX <= payload.value) { return Malformed; }
    var presented := payload.value[|AUTH_PKT_PREFIX|..];
    if presented != [] && presented[|presented| - 1] == '\n' {
      presented := presented[..|presented| - 1];
    }
    var same := Matches(Utf8(expected.text), presented);
    outcome := if same then Accepted else Mismatch;
  }

  /** Reading a token's own preamble, followed by anything at all, is accepted exactly
      when it is the expected token, and leaves precisely what followed. */
  lemma PreambleRoundTrip(t: Token, u: Token, trailing: bytes)
    requires ValidToken(t) && ValidToken(u)
    ensures ReadAuth(AuthPkt(t) + trailing, u) == (if t == u then Accepted else Mismatch, trailing)
  {
    var payload := AuthPayload(t);
    var stream := AuthPkt(t) + trailing;
    FormatThenParse(|payload| + 4);
    assert stream[..4] == FormatLength(|payload| + 4);
    assert stream[4..4 + |payload|] == payload && stream[4 + |payload|..] == trailing;
    assert payload[|AUTH_PKT_PREFIX|..] == Utf8(t.text) + "\n";
    assert (Utf8(t.text) + "\n")[..|Utf8(t.text)|] == Utf8(t.text);
    if t != u && Utf8(t.text) == Utf8(u.text) { Utf8Injective(t.text, u.text); }
  }

  /** A payload carries the secret: the prefix, the secret, at most one newline. */
  predicate CarriesSecret(payload: bytes, u: Token) {
    payload == AUTH_PKT_PREFIX + Utf8(u.text) || payload == AuthPayload(u)
  }

  lemma JudgeAcceptsExactly(payload: bytes, u: Token)
    requires ValidToken(u)
    ensures Judge(payload, u) == Accepted <==> CarriesSecret(payload, u)
  {
    var secret := Utf8(u.text);
    Utf8HasNoNewline(u.text);
    if AUTH_PKT_PREFIX <= payload {
      var presented := payload[|AUTH_PKT_PREFIX|..];
      assert payload == AUTH_PKT_PREFIX + presented;
      assert payload == AUTH_PKT_PREFIX + secret <==> presented == secret;
      assert AuthPayload(u) == AUTH_PKT_PREFIX + (secret + "\n");
      assert payload == AuthPayload(u) <==> presented == secret + "\n";
      if presented != [] && presented[|presented| - 1] == '\n' {
        assert presented == presented[..|presented| - 1] + "\n";
        assert presented != secret;
      }
    }
  }

  /** A stream is accepted exactly when it opens with a pkt-line whose payload is the
      prefix and the secret, with at most one newline after it. */
  lemma AcceptedExactly(stream: bytes, u: Token)
    requires ValidToken(u)
    ensures ReadAuth(stream, u).0 == Accepted <==>
            && |stream| >= 4
            && var len := ParseLength(stream[..4]).GetOr(0);
               4 <= len <= |stream| && CarriesSecret(stream[4..len], u)
  {
    if |stream| >= 4 && ParseLength(stream[..4]).Some? {
      var len := ParseLength(stream[..4]).value;
      if 4 <= len <= |stream| { JudgeAcceptsExactly(stream[4..len], u); }
    }
  }
}
