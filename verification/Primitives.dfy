/** The primitives the code calls but does not define: SHA-256, Ed25519 (section 5.1 of RFC 8032),
    calendar text, the JSON reader and `str` of composite values. Nothing is assumed about them
    beyond result sizes; `SignsCorrectly` and `ClockRoundTrips` are hypotheses of the lemmas that
    need them, and hash collisions and forged signatures appear as outcomes, never assumed away. */
module Primitives {
  import opened Wrappers
  import opened Text
  import opened Json
  import opened CanonicalJson
  import CanonicalMeaning
  import Utf8

  type Sha256 = d: seq<byte> | |d| == 32 witness seq(32, _ => 0)
  type Ed25519Signature = s: seq<byte> | |s| == 64 witness seq(64, _ => 0)

  const MICROSECONDS := 1_000_000

  /** Microseconds since the epoch, within the years a `datetime` represents. */
  type Instant = t: int | -62135596800 * 1_000_000 <= t < 253402300800 * 1_000_000

  datatype Primitives = Primitives(
    sha256: seq<byte> -> Sha256,
    publicKey: seq<byte> -> seq<byte>,
    sign: (seq<byte>, seq<byte>) -> Ed25519Signature,
    verify: (seq<byte>, seq<byte>, seq<byte>) -> bool,
    isoText: int -> string,
    isoInstant: string -> Option<Instant>,
    repr: Json -> string,
    parseJson: seq<byte> -> Option<Json>)
  {
    /** Signatures made with a seed verify under the seed's 32-byte public key. */
    ghost predicate SignsCorrectly() {
      && (forall seed :: |seed| == 32 ==> |publicKey(seed)| == 32)
      && (forall seed, message :: |seed| == 32 ==> verify(publicKey(seed), message, sign(seed, message)))
    }

    /** Whole seconds survive being written and read back. */
    ghost predicate ClockRoundTrips() {
      forall t: Instant :: t % MICROSECONDS == 0 ==>
        var text := isoText(t / MICROSECONDS);
        text != "" && Trimmed(text) && isoInstant(text) == Some(t)
    }

    /** `f"sha256:{sha256(content).hexdigest()}"`. */
    function DigestOf(content: seq<byte>): (d: string)
      ensures |d| == 71 && StartsWith(d, "sha256:") && IsDigest(d)
    {
      var hex := Hex(sha256(content));
      assert ("sha256:" + hex)[7..] == hex;
      "sha256:" + hex
    }

    /** `canonical_hash`. */
    function CanonicalHash(data: Dict, enforce: bool): Result<string, CanonicalizationError> {
      var bytes :- CanonicalJsonBytes(data, enforce);
      Ok(DigestOf(bytes))
    }

    /** `canonical_hash` without the number policy, which cannot raise. */
    function Hash(data: Dict): (d: string)
      ensures IsDigest(d) && CanonicalHash(data, false) == Ok(d)
    {
      DigestOf(Utf8.Encode(CanonicalText(data)))
    }

    /** `str(v)`. */
    function StrOf(v: Json): string {
      match v
      case Null => "None"
      case Bool(b) => if b then "True" else "False"
      case Int(n) => IntText(n)
      case Str(s) => s
      case _ => repr(v)
    }

    /** `str(d.get(key) or "")`. */
    function StrField(d: Dict, key: string): string {
      StrOrEmpty(Get(d, key))
    }

    /** `str(v or "")`. */
    function StrOrEmpty(v: Option<Json>): string {
      if v.None? || Falsy(v.value) then "" else StrOf(v.value)
    }

    /** `_format_utc`: the time floored to a whole second. */
    function FormatUtc(t: Instant): string {
      isoText(t / MICROSECONDS)
    }

    /** `parse_utc_datetime`. */
    function ParseUtc(value: string): Option<Instant> {
      isoInstant(Text.Strip(value))
    }
  }

  /** Two different contents with one digest. */
  predicate Collision(p: Primitives, a: seq<byte>, b: seq<byte>) {
    a != b && p.sha256(a) == p.sha256(b)
  }

  /** The pattern `^sha256:[0-9a-f]{64}$`. */
  predicate IsDigest(s: string) {
    |s| == 71 && "sha256:" <= s && forall i :: 7 <= i < 71 ==> IsLowerHex(s[i])
  }

  /** Values that are false in a boolean position. */
  predicate Falsy(v: Json) {
    match v
    case Null => true
    case Bool(b) => !b
    case Int(n) => n == 0
    case Float(repr, _) => repr == "0.0" || repr == "-0.0"
    case Str(s) => s == ""
    case Arr(items) => items == []
    case Obj(members) => members == []
  }

  function FloorToSecond(t: Instant): (r: Instant)
    ensures r <= t < r + MICROSECONDS && r % MICROSECONDS == 0 && r / MICROSECONDS == t / MICROSECONDS
  {
    t / MICROSECONDS * MICROSECONDS
  }

  /** A digest is "sha256:" and 64 lower-case hexadecimal digits. */
  lemma DigestMeaning(s: string)
    ensures IsDigest(s) <==> "sha256:" <= s && |s| == 71 && forall i :: 7 <= i < 71 ==> s[i] in "0123456789abcdef"
  {
    assert forall c :: IsLowerHex(c) <==> c in "0123456789abcdef";
  }

  /** `str(d.get(key) or "")`, for each kind of value. */
  lemma StrFieldTexts(p: Primitives, d: Dict, key: string)
    ensures match Get(d, key)
            case None => p.StrField(d, key) == ""
            case Some(Null) => p.StrField(d, key) == ""
            case Some(Bool(b)) => p.StrField(d, key) == if b then "True" else ""
            case Some(Int(n)) => p.StrField(d, key) == if n == 0 then "" else IntText(n)
            case Some(Str(s)) => p.StrField(d, key) == s
            case Some(Arr(items)) => items == [] ==> p.StrField(d, key) == ""
            case Some(Obj(members)) => members == [] ==> p.StrField(d, key) == ""
            case Some(Float(repr, _)) => repr in {"0.0", "-0.0"} ==> p.StrField(d, key) == ""
    ensures p.StrOf(Null) == "None" && p.StrOf(Bool(true)) == "True" && p.StrOf(Bool(false)) == "False"
  {
    hide Get;
  }

  /** Two different contents collide exactly when they have one digest. */
  lemma CollisionMeans(p: Primitives, a: seq<byte>, b: seq<byte>)
    ensures Collision(p, a, b) <==> a != b && p.DigestOf(a) == p.DigestOf(b)
  {
    if p.DigestOf(a) == p.DigestOf(b) {
      DigestEqualOrCollision(p, a, b);
    }
  }

  lemma DigestEqualOrCollision(p: Primitives, a: seq<byte>, b: seq<byte>)
    requires p.DigestOf(a) == p.DigestOf(b)
    ensures a == b || Collision(p, a, b)
  {
    var x, y := Hex(p.sha256(a)), Hex(p.sha256(b));
    assert x == p.DigestOf(a)[7..] && y == p.DigestOf(b)[7..];
    HexInjective(p.sha256(a), p.sha256(b));
  }

  /** Equal release digests mean equal bodies, unless two canonical texts collide under SHA-256. */
  lemma EqualDigestsEqualBodies(p: Primitives, a: Dict, b: Dict)
    requires p.CanonicalHash(a, true).Ok? && p.CanonicalHash(a, true) == p.CanonicalHash(b, true)
    ensures || CanonicalMeaning.SameBody(a, b)
            || Collision(p, CanonicalJsonBytes(a, true).value, CanonicalJsonBytes(b, true).value)
  {
    DigestEqualOrCollision(p, CanonicalJsonBytes(a, true).value, CanonicalJsonBytes(b, true).value);
    CanonicalMeaning.ReleaseBytesIdentifyBody(a, b);
  }

  /** The digest sees an artifact only through the fields it covers. */
  lemma HashOfSameBody(p: Primitives, a: Dict, b: Dict)
    requires CanonicalMeaning.SameBody(a, b)
    ensures p.Hash(a) == p.Hash(b)
  {
    CanonicalMeaning.SameBodySameText(a, b);
  }

  lemma FormatUtcRoundTrip(p: Primitives, t: Instant)
    requires p.ClockRoundTrips()
    ensures p.FormatUtc(t) != "" && p.ParseUtc(p.FormatUtc(t)) == Some(FloorToSecond(t))
  {
    var floored := FloorToSecond(t);
    assert p.isoText(floored / MICROSECONDS) == p.FormatUtc(t);
    StripTrimmed(p.FormatUtc(t));
  }
}
