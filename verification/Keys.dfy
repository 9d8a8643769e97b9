/** Session keys (AuthUtils.ts) and record keys (RecordsController.ts) as text. */
module Keys {
  import opened JsStrings
  import opened Options
  import opened Utf8
  import opened Base64
  import opened Authorization

  const SESSION_PREFIX: JsString := [0x76, 0x53, 0x4B, 0x31, PERIOD]      // vSK1.
  const RECORD_V1_PREFIX: JsString := [0x76, 0x52, 0x4B, 0x31, PERIOD]    // vRK1.
  const RECORD_V2_PREFIX: JsString := [0x76, 0x52, 0x4B, 0x32, PERIOD]    // vRK2.

  const OPEN_AI_PREFIX: JsString := [0x76, 0x41, 0x49, 0x31, PERIOD]      // vAI1.

  // ----- decimal numbers -----

  const ZERO: CodeUnit := 0x30

  predicate IsDigit(u: CodeUnit) { 0x30 <= u <= 0x39 }

  /** `n.toString()` */
  function Digits(n: nat): (r: JsString)
    ensures r != []
  {
    if n < 10 then [ZERO + n] else Digits(n / 10) + [ZERO + n % 10]
  }

  predicate IsWhitespace(u: CodeUnit) {
    || 9 <= u <= 13 || u == 0x20 || u == 0xA0 || u == 0x1680 || 0x2000 <= u <= 0x200A
    || u == 0x2028 || u == 0x2029 || u == 0x202F || u == 0x205F || u == 0x3000 || u == 0xFEFF
  }

  function TrimStart(s: JsString): JsString {
    if s != [] && IsWhitespace(s[0]) then TrimStart(s[1..]) else s
  }

  function DigitValue(u: CodeUnit, radix: int): Option<nat> {
    if IsDigit(u) then Some(u - 0x30)
    else if radix == 16 && 0x41 <= u <= 0x46 then Some(u - 0x41 + 10)
    else if radix == 16 && 0x61 <= u <= 0x66 then Some(u - 0x61 + 10)
    else None
  }

  /** The number the leading digits spell, after `value`. */
  function ReadDigits(s: JsString, radix: nat, value: nat): nat {
    if s == [] || DigitValue(s[0], radix).None? then value
    else ReadDigits(s[1..], radix, value * radix + DigitValue(s[0], radix).value)
  }

  function ParseUnsigned(s: JsString): Option<nat> {
    var hex := |s| > 1 && s[0] == ZERO && (s[1] == 0x78 || s[1] == 0x58);
    var radix := if hex then 16 else 10;
    var digits := if hex then s[2..] else s;
    if digits == [] || DigitValue(digits[0], radix).None? then None else Some(ReadDigits(digits, radix, 0))
  }

  /** `parseInt(s)`; None is NaN. */
  function ParseInt(s: JsString): Option<int> {
    var t := TrimStart(s);
    if t != [] && t[0] == 0x2D then
      var n := ParseUnsigned(t[1..]);
      if n.Some? then (var v: int := n.value; Some(-v)) else None
    else
      var n := ParseUnsigned(if t != [] && t[0] == 0x2B then t[1..] else t);
      if n.Some? then Some(n.value) else None
  }

  lemma {:induction false} DigitsShape(n: nat)
    ensures forall u | u in Digits(n) :: IsDigit(u)
    ensures IsDigit(Digits(n)[0])
    ensures |Digits(n)| > 1 ==> IsDigit(Digits(n)[1])
    ensures IsAscii(Digits(n))
  {
    if n >= 10 {
      DigitsShape(n / 10);
      assert Digits(n)[0] in Digits(n);
    }
  }

  predicate AllDigits(s: JsString) { forall u | u in s :: IsDigit(u) }

  lemma {:induction false} ReadSnoc(s: JsString, d: CodeUnit, value: nat)
    requires AllDigits(s) && IsDigit(d)
    ensures ReadDigits(s + [d], 10, value) == ReadDigits(s, 10, value) * 10 + (d - 0x30)
    decreases |s|
  {
    if s == [] {
      assert (s + [d])[1..] == [];
    } else {
      assert s[0] in s;
      assert (s + [d])[1..] == s[1..] + [d];
      assert forall u | u in s[1..] :: u in s;
      ReadSnoc(s[1..], d, value * 10 + (s[0] - 0x30));
    }
  }

  lemma {:induction false} ReadPrinted(n: nat)
    ensures ReadDigits(Digits(n), 10, 0) == n
  {
    if n < 10 {
      assert [ZERO + n][1..] == [];
    } else {
      DigitsShape(n / 10);
      ReadPrinted(n / 10);
      ReadSnoc(Digits(n / 10), ZERO + n % 10, 0);
    }
  }

  lemma ParsePrinted(n: nat)
    ensures ParseInt(Digits(n)) == Some(n)
  {
    DigitsShape(n);
    ReadPrinted(n);
  }

  // ----- fields separated by periods -----

  /** The text before and after the first period, both nonempty. */
  function SplitField(s: JsString): Option<(JsString, JsString)> {
    var i := IndexOfUnit(s, PERIOD);
    if i == -1 then None
    else
      var head, tail := s[..i], s[i + 1..];
      if head == [] || tail == [] then None else Some((head, tail))
  }

  lemma SplitJoined(head: JsString, tail: JsString)
    requires PERIOD !in head
    ensures SplitField(head + [PERIOD] + tail) == if head == [] || tail == [] then None else Some((head, tail))
  {
    var s := head + [PERIOD] + tail;
    var i := IndexOfUnit(s, PERIOD);
    assert s[|head|] == PERIOD;
    assert forall k | 0 <= k < |head| :: s[k] == head[k];
    assert s[|head|..|head| + 1] == [PERIOD];
    IndexOfIsFirst(s, [PERIOD], 0, |head|);
    assert s[..|head|] == head && s[|head| + 1..] == tail;
  }

  function WithoutPrefix(key: JsString, prefix: JsString): Option<JsString> {
    if StartsWith(key, prefix) then Some(key[|prefix|..]) else None
  }

  lemma PrefixRoundTrip(prefix: JsString, rest: JsString)
    ensures WithoutPrefix(prefix + rest, prefix) == Some(rest)
  {
    assert (prefix + rest)[0..0 + |prefix|] == prefix;
    assert (prefix + rest)[|prefix|..] == rest;
  }

  // ----- session keys -----

  datatype SessionKey = SessionKey(userId: JsString, sessionId: JsString, secret: JsString, expireTimeMs: Option<int>)

  function SessionFields(userId: JsString, sessionId: JsString, secret: JsString, expire: JsString): JsString {
    ToBase64String(userId) + [PERIOD] + (ToBase64String(sessionId) + [PERIOD]
                                         + (ToBase64String(secret) + [PERIOD] + ToBase64String(expire)))
  }

  function FormatV1SessionKey(userId: JsString, sessionId: JsString, secret: JsString, expireTimeMs: nat): JsString {
    SESSION_PREFIX + SessionFields(userId, sessionId, secret, Digits(expireTimeMs))
  }

  /** `parseV1SessionKey`; None is null, and an expiry of None is NaN. */
  function ParseV1SessionKey(key: JsString): Option<SessionKey> {
    match WithoutPrefix(key, SESSION_PREFIX)
    case None => None
    case Some(rest) =>
      match SplitField(rest)
      case None => None
      case Some((userId, rest)) =>
        match SplitField(rest)
        case None => None
        case Some((sessionId, rest)) =>
          match SplitField(rest)
          case None => None
          case Some((secret, expire)) =>
            var u, s, p, e := FromBase64String(userId), FromBase64String(sessionId), FromBase64String(secret),
                FromBase64String(expire);
            if u.None? || s.None? || p.None? || e.None? then None
            else Some(SessionKey(u.value, s.value, p.value, ParseInt(e.value)))
  }

  /** What can stand in a key: nonempty, well formed, no byte order mark in front. */
  predicate Keyable(s: JsString) { s != [] && WellFormed(s) && !StartsWithBom(s) }

  /** Parsing inverts formatting exactly when the three texts can stand in a key. */
  lemma SessionKeyRoundTripExact(userId: JsString, sessionId: JsString, secret: JsString, expireTimeMs: nat)
    ensures ParseV1SessionKey(FormatV1SessionKey(userId, sessionId, secret, expireTimeMs))
            == Some(SessionKey(userId, sessionId, secret, Some(expireTimeMs)))
        <==> Keyable(userId) && Keyable(sessionId) && Keyable(secret)
  {
    var e := Digits(expireTimeMs);
    ParsePrinted(expireTimeMs);
    DigitsShape(expireTimeMs);
    AsciiWellFormed(e);
    StringRoundTripExact(userId);
    StringRoundTripExact(sessionId);
    StringRoundTripExact(secret);
    StringRoundTripExact(e);
    SessionFieldsSplit(userId, sessionId, secret, e);
  }

  lemma SessionFieldsSplit(userId: JsString, sessionId: JsString, secret: JsString, expire: JsString)
    ensures var u, s, p, e := ToBase64String(userId), ToBase64String(sessionId), ToBase64String(secret), ToBase64String(expire);
            var all := SessionFields(userId, sessionId, secret, expire);
            && WithoutPrefix(SESSION_PREFIX + all, SESSION_PREFIX) == Some(all)
            && SplitField(all) == (if userId == [] then None else Some((u, s + [PERIOD] + (p + [PERIOD] + e))))
            && SplitField(s + [PERIOD] + (p + [PERIOD] + e)) == (if sessionId == [] then None else Some((s, p + [PERIOD] + e)))
            && SplitField(p + [PERIOD] + e) == (if secret == [] || expire == [] then None else Some((p, e)))
  {
    var u, s, p, e := ToBase64String(userId), ToBase64String(sessionId), ToBase64String(secret), ToBase64String(expire);
    StringRoundTripExact(userId);
    StringRoundTripExact(sessionId);
    StringRoundTripExact(secret);
    StringRoundTripExact(expire);
    PrefixRoundTrip(SESSION_PREFIX, SessionFields(userId, sessionId, secret, expire));
    SplitJoined(u, s + [PERIOD] + (p + [PERIOD] + e));
    SplitJoined(s, p + [PERIOD] + e);
    SplitJoined(p, e);
  }

  // ----- keys of another service -----

  function FormatV1OpenAiKey(apiKey: JsString): JsString { OPEN_AI_PREFIX + ToBase64String(apiKey) }

  /** `parseOpenAiKey`; None is null, or the error of text that is not base64. */
  function ParseOpenAiKey(key: JsString): Option<JsString> {
    match WithoutPrefix(key, OPEN_AI_PREFIX)
    case None => None
    case Some(rest) => FromBase64String(rest)
  }

  /** A stored key reads back exactly when it is well formed and starts with no byte order mark. */
  lemma OpenAiKeyRoundTripExact(apiKey: JsString)
    ensures ParseOpenAiKey(FormatV1OpenAiKey(apiKey)) == Some(apiKey) <==> WellFormed(apiKey) && !StartsWithBom(apiKey)
  {
    PrefixRoundTrip(OPEN_AI_PREFIX, ToBase64String(apiKey));
    StringRoundTripExact(apiKey);
  }

  // ----- record keys -----

  datatype RecordKey = RecordKey(name: JsString, password: JsString, policy: KeyPolicy)

  const DEFAULT_RECORD_KEY_POLICY: KeyPolicy := Subjectfull

  /** subject */
  const SUBJECT: JsString := [0x73, 0x75, 0x62, 0x6A, 0x65, 0x63, 0x74]

  /** subjectfull or subjectless */
  function PolicyText(policy: KeyPolicy): JsString {
    SUBJECT + if policy.Subjectfull? then [0x66, 0x75, 0x6C, 0x6C] else [0x6C, 0x65, 0x73, 0x73]
  }

  function PolicyOfText(t: JsString): Option<KeyPolicy> {
    if t == PolicyText(Subjectfull) then Some(Subjectfull)
    else if t == PolicyText(Subjectless) then Some(Subjectless)
    else None
  }

  function FormatV1RecordKey(name: JsString, secret: JsString): JsString {
    RECORD_V1_PREFIX + (ToBase64String(name) + [PERIOD] + ToBase64String(secret))
  }

  /** The policy is written as given; the default stands for an absent one. */
  function FormatV2RecordKey(name: JsString, secret: JsString, policy: Option<JsString>): JsString {
    RECORD_V2_PREFIX + (ToBase64String(name) + [PERIOD] + (ToBase64String(secret) + [PERIOD] + PolicyOrDefault(policy)))
  }

  function PolicyOrDefault(policy: Option<JsString>): JsString {
    if policy.Some? then policy.value else PolicyText(DEFAULT_RECORD_KEY_POLICY)
  }

  function ParseV2RecordKey(key: JsString): Option<RecordKey> {
    match WithoutPrefix(key, RECORD_V2_PREFIX)
    case None => None
    case Some(rest) =>
      match SplitField(rest)
      case None => None
      case Some((name, rest)) =>
        match SplitField(rest)
        case None => None
        case Some((password, policyText)) =>
          var policy, n, p := PolicyOfText(policyText), FromBase64String(name), FromBase64String(password);
          if policy.None? || n.None? || p.None? then None else Some(RecordKey(n.value, p.value, policy.value))
  }

  function ParseV1RecordKey(key: JsString): Option<RecordKey> {
    match WithoutPrefix(key, RECORD_V1_PREFIX)
    case None => None
    case Some(rest) =>
      match SplitField(rest)
      case None => None
      case Some((name, password)) =>
        var n, p := FromBase64String(name), FromBase64String(password);
        if n.None? || p.None? then None else Some(RecordKey(n.value, p.value, DEFAULT_RECORD_KEY_POLICY))
  }

  /** `parseRecordKey` */
  function ParseRecordKey(key: JsString): Option<RecordKey> {
    match ParseV2RecordKey(key)
    case Some(k) => Some(k)
    case None => ParseV1RecordKey(key)
  }

  /** `isRecordKey` */
  predicate IsRecordKey(key: JsString) { ParseRecordKey(key).Some? }

  lemma VersionDigit(key: JsString, prefix: JsString)
    requires |prefix| == 5 && StartsWith(key, prefix)
    ensures |key| >= 5 && key[3] == prefix[3]
  {
    assert key[0..0 + 5][3] == key[3];
  }

  lemma NotVersion(key: JsString, prefix: JsString)
    requires |prefix| == 5 && |key| >= 5 && key[3] != prefix[3]
    ensures !StartsWith(key, prefix)
  {
    assert key[0..0 + 5][3] == key[3];
  }

  /** No text is a key of both versions, so the fallback confuses nothing. */
  lemma VersionsDisjoint(key: JsString)
    ensures ParseV2RecordKey(key).None? || ParseV1RecordKey(key).None?
  {
    if StartsWith(key, RECORD_V2_PREFIX) { VersionDigit(key, RECORD_V2_PREFIX); }
    if StartsWith(key, RECORD_V1_PREFIX) { VersionDigit(key, RECORD_V1_PREFIX); }
  }

  lemma RecordFieldsSplit(name: JsString, secret: JsString, tail: JsString)
    ensures var n, p := ToBase64String(name), ToBase64String(secret);
            && SplitField(n + [PERIOD] + p) == (if name == [] || secret == [] then None else Some((n, p)))
            && SplitField(n + [PERIOD] + (p + [PERIOD] + tail)) == (if name == [] then None else Some((n, p + [PERIOD] + tail)))
            && SplitField(p + [PERIOD] + tail) == (if secret == [] || tail == [] then None else Some((p, tail)))
  {
    var n, p := ToBase64String(name), ToBase64String(secret);
    StringRoundTripExact(name);
    StringRoundTripExact(secret);
    SplitJoined(n, p);
    SplitJoined(n, p + [PERIOD] + tail);
    SplitJoined(p, tail);
  }

  /** What a text becomes on its way through a key. */
  function Through(s: JsString): JsString { Utf8.Decode(Utf8.Encode(s)) }

  lemma ThroughExact(s: JsString)
    ensures FromBase64String(ToBase64String(s)) == Some(Through(s))
    ensures s != [] && Through(s) == s <==> Keyable(s)
  {
    Base64.DecodeEncode(Utf8.Encode(s));
    RoundTripExact(s);
  }

  lemma ParseFormattedV1(name: JsString, secret: JsString)
    ensures ParseRecordKey(FormatV1RecordKey(name, secret))
         == if name == [] || secret == [] then None else Some(RecordKey(Through(name), Through(secret), Subjectfull))
  {
    var key := FormatV1RecordKey(name, secret);
    PrefixRoundTrip(RECORD_V1_PREFIX, ToBase64String(name) + [PERIOD] + ToBase64String(secret));
    VersionDigit(key, RECORD_V1_PREFIX);
    NotVersion(key, RECORD_V2_PREFIX);
    assert ParseV2RecordKey(key).None?;
    RecordFieldsSplit(name, secret, []);
    ThroughExact(name);
    ThroughExact(secret);
  }

  lemma RecordKeyV1RoundTripExact(name: JsString, secret: JsString)
    ensures ParseRecordKey(FormatV1RecordKey(name, secret)) == Some(RecordKey(name, secret, Subjectfull))
        <==> Keyable(name) && Keyable(secret)
  {
    ParseFormattedV1(name, secret);
    ThroughExact(name);
    ThroughExact(secret);
  }

  lemma ParseFormattedV2(name: JsString, secret: JsString, policy: Option<JsString>)
    ensures ParseV2RecordKey(FormatV2RecordKey(name, secret, policy))
         == if name == [] || secret == [] || PolicyOfText(PolicyOrDefault(policy)).None? then None
            else Some(RecordKey(Through(name), Through(secret), PolicyOfText(PolicyOrDefault(policy)).value))
  {
    var text := PolicyOrDefault(policy);
    PrefixRoundTrip(RECORD_V2_PREFIX, ToBase64String(name) + [PERIOD] + (ToBase64String(secret) + [PERIOD] + text));
    RecordFieldsSplit(name, secret, text);
    ThroughExact(name);
    ThroughExact(secret);
  }

  lemma FormattedV2IsNotV1(name: JsString, secret: JsString, policy: Option<JsString>)
    ensures ParseV1RecordKey(FormatV2RecordKey(name, secret, policy)).None?
  {
    var key := FormatV2RecordKey(name, secret, policy);
    PrefixRoundTrip(RECORD_V2_PREFIX, ToBase64String(name) + [PERIOD]
                    + (ToBase64String(secret) + [PERIOD] + PolicyOrDefault(policy)));
    VersionDigit(key, RECORD_V2_PREFIX);
    NotVersion(key, RECORD_V1_PREFIX);
  }

  /** A formatted key parses back exactly when its texts can stand in a key and
      its policy, if given, is the text of one: not the empty text, which the
      controller lets through. */
  lemma RecordKeyV2RoundTripExact(name: JsString, secret: JsString, policy: Option<JsString>, k: KeyPolicy)
    ensures ParseRecordKey(FormatV2RecordKey(name, secret, policy)) == Some(RecordKey(name, secret, k))
        <==> Keyable(name) && Keyable(secret) && PolicyOfText(PolicyOrDefault(policy)) == Some(k)
  {
    ParseFormattedV2(name, secret, policy);
    FormattedV2IsNotV1(name, secret, policy);
    ThroughExact(name);
    ThroughExact(secret);
  }

  lemma EmptyPolicyUnparseable(name: JsString, secret: JsString)
    ensures ParseRecordKey(FormatV2RecordKey(name, secret, Some([]))).None?
  {
    ParseFormattedV2(name, secret, Some([]));
    FormattedV2IsNotV1(name, secret, Some([]));
  }

  lemma PolicyTextRoundTrip(policy: KeyPolicy)
    ensures PolicyOfText(PolicyText(policy)) == Some(policy)
  {
    assert PolicyText(Subjectfull)[7] != PolicyText(Subjectless)[7];
  }
}
