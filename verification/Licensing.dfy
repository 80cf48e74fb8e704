/** Signed licence tokens: printing, and checking offline. */
module Licensing {
  import opened Wrappers
  import Base64
  import Decimal
  import Text
  import Utf8

  const PREFIX := "voxdesk-license-v1"

  datatype LicenseInfo = LicenseInfo(tenantId: string, plan: string, seats: int, expiresAt: int, issuedAt: int)

  function PayloadParts(info: LicenseInfo): seq<string> {
    [PREFIX, info.plan, Decimal.Print(info.seats), Decimal.Print(info.expiresAt), Decimal.Print(info.issuedAt), info.tenantId]
  }

  function PayloadToString(info: LicenseInfo): string {
    Text.Join(PayloadParts(info), '.')
  }

  /** The keyed digest of a payload, in hexadecimal. */
  type Signer = string -> string

  predicate HexDigits(s: string) {
    s != "" && forall c | c in s :: '0' <= c <= '9' || 'a' <= c <= 'f'
  }

  ghost predicate Hexadecimal(sign: Signer) {
    forall payload :: HexDigits(sign(payload))
  }

  function IssueLicense(sign: Signer, info: LicenseInfo): string {
    Base64.Encode(Utf8.Encode(PayloadToString(info))) + "." + sign(PayloadToString(info))
  }

  /**
   How a token's body and the numbers inside it are read; None where reading raises. The program's readers are more
   lenient than its printers, so what follows holds for any readers.
   */
  datatype Readers = Readers(body: string -> Option<string>, number: string -> Option<int>)

  /** They read back whatever was printed. */
  ghost predicate Faithful(readers: Readers) {
    && (forall raw :: readers.body(Base64.Encode(Utf8.Encode(raw))) == Some(raw))
    && (forall n :: readers.number(Decimal.Print(n)) == Some(n))
  }

  /** The text of a token's body; None when it is not Base64 of UTF-8. */
  function DecodeBody(body: string): Option<string> {
    match Base64.Decode(body)
    case None => None
    case Some(bytes) => Utf8.Decode(bytes)
  }

  /** The readers that accept only what the printers write. */
  const STRICT := Readers(DecodeBody, Decimal.Parse)

  lemma StrictIsFaithful()
    ensures Faithful(STRICT)
  {
    forall raw ensures DecodeBody(Base64.Encode(Utf8.Encode(raw))) == Some(raw) {
      Base64.DecodeEncode(Utf8.Encode(raw));
      Utf8.DecodeEncode(raw);
    }
    forall n ensures Decimal.Parse(Decimal.Print(n)) == Some(n) {
      Decimal.ParsePrint(n);
    }
  }

  predicate Shaped(raw: string) {
    var parts := Text.Split(raw, '.');
    |parts| == 6 && parts[0] == PREFIX
  }

  /** The fields of a payload that is properly shaped, whatever they say. */
  function ReadPayload(readers: Readers, raw: string): Option<LicenseInfo> {
    if !Shaped(raw) then None
    else
      var parts := Text.Split(raw, '.');
      match (readers.number(parts[2]), readers.number(parts[3]), readers.number(parts[4]))
      case (Some(seats), Some(expiresAt), Some(issuedAt)) => Some(LicenseInfo(parts[5], parts[1], seats, expiresAt, issuedAt))
      case _ => None
  }

  predicate Ascii(s: string) {
    forall c | c in s :: c as int < 128
  }

  /** Comparing digests refuses, by an error nobody catches, a signature that is not ASCII. */
  datatype LicenseError = SignatureNotAscii

  type Verdict = Result<Option<LicenseInfo>, LicenseError>

  /** A token's body checked against its signature and the clock. */
  function CheckBody(readers: Readers, sign: Signer, body: string, signature: string, now: int): Verdict {
    match readers.body(body)
    case None => Success(None)
    case Some(raw) =>
      if !Shaped(raw) then Success(None)
      else if !Ascii(signature) then Failure(SignatureNotAscii)
      else if sign(raw) != signature then Success(None)
      else
        match ReadPayload(readers, raw)
        case None => Success(None)
        case Some(info) => Success(if now >= info.expiresAt || info.seats < 1 then None else Some(info))
  }

  function VerifyLicense(readers: Readers, sign: Signer, token: string, now: int): Verdict {
    var dot := Text.LastIndexOf(token, '.');
    if dot == |token| || dot == 0 || dot + 1 == |token| then Success(None)
    else CheckBody(readers, sign, token[..dot], token[dot + 1..], now)
  }

  // ---------------------------------------------------------------- what was issued is what is verified

  function Dots(s: string): nat {
    if s == "" then 0 else Dots(s[1..]) + if s[0] == '.' then 1 else 0
  }

  lemma {:induction false} DotsAdd(a: string, b: string)
    ensures Dots(a + b) == Dots(a) + Dots(b)
  {
    if a == "" {
      assert a + b == b;
    } else {
      assert (a + b)[1..] == a[1..] + b;
      DotsAdd(a[1..], b);
    }
  }

  lemma {:induction false} NoDots(s: string)
    ensures Dots(s) == 0 <==> '.' !in s
  {
    if s != "" {
      NoDots(s[1..]);
      assert '.' in s <==> s[0] == '.' || '.' in s[1..];
    }
  }

  /** One piece more than there are separators. */
  lemma {:induction false} SplitCounts(s: string)
    ensures |Text.Split(s, '.')| == Dots(s) + 1
    decreases |s|
  {
    var i := Text.IndexOf(s, '.');
    if i < |s| {
      SplitCounts(s[i + 1..]);
      FirstSeparator(s);
      assert s == s[..i] + (['.'] + s[i + 1..]);
      DotsAdd(s[..i], ['.'] + s[i + 1..]);
      assert (['.'] + s[i + 1..])[1..] == s[i + 1..];
      NoDots(s[..i]);
    } else {
      NoDots(s);
    }
  }

  lemma {:induction false} FirstSeparator(s: string)
    ensures var i := Text.IndexOf(s, '.'); '.' !in s[..i] && (i < |s| ==> s[i] == '.')
  {
    if s != "" && s[0] != '.' {
      FirstSeparator(s[1..]);
      var i := Text.IndexOf(s, '.');
      assert s[..i] == [s[0]] + s[1..][..i - 1];
    }
  }

  function TotalDots(parts: seq<string>): nat {
    if parts == [] then 0 else Dots(parts[0]) + TotalDots(parts[1..])
  }

  lemma {:induction false} JoinDots(parts: seq<string>)
    requires parts != []
    ensures Dots(Text.Join(parts, '.')) == TotalDots(parts) + |parts| - 1
  {
    if |parts| > 1 {
      var rest := Text.Join(parts[1..], '.');
      JoinDots(parts[1..]);
      assert parts[0] + ['.'] + rest == parts[0] + (['.'] + rest);
      DotsAdd(parts[0], ['.'] + rest);
      assert (['.'] + rest)[1..] == rest;
    }
  }

  lemma {:induction false} TotalDotsZero(parts: seq<string>)
    ensures TotalDots(parts) == 0 <==> forall p | p in parts :: '.' !in p
  {
    if parts != [] {
      NoDots(parts[0]);
      TotalDotsZero(parts[1..]);
      assert forall p :: p in parts <==> p == parts[0] || p in parts[1..];
    }
  }

  /** Joining and splitting gives back the pieces when none contains a dot, and too many pieces otherwise. */
  lemma JoinedSplits(parts: seq<string>)
    requires parts != []
    ensures (forall p | p in parts :: '.' !in p) ==> Text.Split(Text.Join(parts, '.'), '.') == parts
    ensures (exists p :: p in parts && '.' in p) ==> |Text.Split(Text.Join(parts, '.'), '.')| > |parts|
  {
    if forall p | p in parts :: '.' !in p {
      Text.SplitJoin(parts, '.');
    }
    JoinDots(parts);
    TotalDotsZero(parts);
    SplitCounts(Text.Join(parts, '.'));
  }

  lemma PayloadPartsDots(info: LicenseInfo)
    ensures (forall p | p in PayloadParts(info) :: '.' !in p) <==> '.' !in info.plan && '.' !in info.tenantId
  {
  }

  lemma ReadsParts(readers: Readers, raw: string, info: LicenseInfo)
    requires Faithful(readers) && Text.Split(raw, '.') == PayloadParts(info)
    ensures ReadPayload(readers, raw) == Some(info)
  {
  }

  /** An issued payload reads back as its own fields exactly when neither free-text field contains the separator. */
  lemma PayloadReadsBack(readers: Readers, info: LicenseInfo)
    requires Faithful(readers)
    ensures Shaped(PayloadToString(info)) <==> '.' !in info.plan && '.' !in info.tenantId
    ensures ReadPayload(readers, PayloadToString(info)) == if Shaped(PayloadToString(info)) then Some(info) else None
  {
    PayloadPartsDots(info);
    JoinedSplits(PayloadParts(info));
    if '.' !in info.plan && '.' !in info.tenantId {
      ReadsParts(readers, PayloadToString(info), info);
    }
  }

  /** The payload: a fixed prefix and the five fields, in this order. */
  lemma PayloadInOrder(info: LicenseInfo)
    ensures PayloadToString(info)
         == "voxdesk-license-v1." + (info.plan + "." + (Decimal.Print(info.seats) + "."
            + (Decimal.Print(info.expiresAt) + "." + (Decimal.Print(info.issuedAt) + "." + info.tenantId))))
  {
    var p := PayloadParts(info);
    assert p[1..][1..][1..][1..][1..] == [info.tenantId];
    assert Text.Join(p[1..][1..][1..][1..], '.') == Decimal.Print(info.issuedAt) + "." + info.tenantId;
    assert Text.Join(p[1..][1..][1..], '.') == Decimal.Print(info.expiresAt) + "." + Text.Join(p[1..][1..][1..][1..], '.');
    assert Text.Join(p[1..][1..], '.') == Decimal.Print(info.seats) + "." + Text.Join(p[1..][1..][1..], '.');
    assert Text.Join(p[1..], '.') == info.plan + "." + Text.Join(p[1..][1..], '.');
    assert "voxdesk-license-v1." == PREFIX + ".";
  }

  /** The last dot of a token separates the body from the signature. */
  lemma TokenSplits(readers: Readers, sign: Signer, info: LicenseInfo)
    requires Faithful(readers) && Hexadecimal(sign)
    ensures
      var token, raw := IssueLicense(sign, info), PayloadToString(info);
      var dot := Text.LastIndexOf(token, '.');
      && 0 < dot && dot + 1 < |token|
      && readers.body(token[..dot]) == Some(raw) && token[dot + 1..] == sign(raw) && Ascii(sign(raw))
  {
    var raw := PayloadToString(info);
    var body := Base64.Encode(Utf8.Encode(raw));
    assert HexDigits(sign(raw));
    Text.LastIndexOfLast(body, '.', sign(raw));
    var token := IssueLicense(sign, info);
    assert token == body + ['.'] + sign(raw);
    assert token[..|body|] == body && token[|body| + 1..] == sign(raw);
    assert raw != "" by {
      assert raw == PREFIX + ['.'] + Text.Join(PayloadParts(info)[1..], '.');
    }
    assert Utf8.Encode(raw) != [];
    Base64.EncodeHasNoDot(Utf8.Encode(raw));
  }

  /**
   Verifying an issued licence, possibly with another key: it returns exactly the issued fields when the two keys
   agree on the payload's digest, plan and tenant contain no dot, there is a seat and it has not expired; otherwise
   nothing, and it never raises.
   */
  lemma IssuedLicenseVerifies(readers: Readers, issuer: Signer, verifier: Signer, info: LicenseInfo, now: int)
    requires Faithful(readers) && Hexadecimal(issuer)
    ensures VerifyLicense(readers, verifier, IssueLicense(issuer, info), now)
         == Success(if && verifier(PayloadToString(info)) == issuer(PayloadToString(info))
                       && '.' !in info.plan && '.' !in info.tenantId && info.seats >= 1 && now < info.expiresAt
                    then Some(info) else None)
  {
    TokenSplits(readers, issuer, info);
    PayloadReadsBack(readers, info);
  }

  /** Nothing is accepted that is not signed: the signature is the digest of the very payload the fields come from. */
  lemma AcceptedIsSigned(readers: Readers, sign: Signer, token: string, now: int, info: LicenseInfo)
    returns (body: string, raw: string)
    requires VerifyLicense(readers, sign, token, now) == Success(Some(info))
    ensures token == body + ['.'] + sign(raw) && readers.body(body) == Some(raw) && ReadPayload(readers, raw) == Some(info)
    ensures info.seats >= 1 && now < info.expiresAt
  {
    var dot := Text.LastIndexOf(token, '.');
    body := token[..dot];
    raw := readers.body(body).value;
    LastSeparator(token);
  }

  /** Checking raises exactly for a well-shaped body beside a signature that is not ASCII. */
  lemma RaisesExactlyWhen(readers: Readers, sign: Signer, body: string, signature: string, now: int)
    requires body != "" && signature != "" && '.' !in signature
    ensures VerifyLicense(readers, sign, body + ['.'] + signature, now).Failure?
       <==> readers.body(body).Some? && Shaped(readers.body(body).value) && !Ascii(signature)
  {
    var token := body + ['.'] + signature;
    Text.LastIndexOfLast(body, '.', signature);
    assert token[..|body|] == body && token[|body| + 1..] == signature;
  }

  lemma {:induction false} LastSeparator(s: string)
    ensures var i := Text.LastIndexOf(s, '.'); i < |s| ==> s == s[..i] + ['.'] + s[i + 1..]
  {
    if s != "" && s[|s| - 1] != '.' {
      LastSeparator(s[..|s| - 1]);
    }
  }
}
