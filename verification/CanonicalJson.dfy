/** PCS Canonical JSON v1 (python/pcs_core/hash.py): key sorting, the compact printer, the number
    policy and the fields a digest never covers. */
module CanonicalJson {
  import opened Wrappers
  import opened Text
  import opened Json
  import Utf8

  const SIGNATURE_FIELD := "signature_or_digest"
  const ARTIFACT_DIGEST_FIELD := "artifact_digest"
  const SIGNATURE_OBJECT_FIELD := "signature"
  const HASH_EXCLUDED_FIELDS: set<string> := {SIGNATURE_FIELD, ARTIFACT_DIGEST_FIELD, SIGNATURE_OBJECT_FIELD}

  function Zeros(n: nat): (s: string)
    ensures |s| == n && forall i :: 0 <= i < n ==> s[i] == '0'
  {
    seq(n, _ => '0')
  }

  const PLACEHOLDER_DIGEST := "sha256:" + Zeros(64)

  const SAFE_INTEGER_MIN := -9007199254740991
  const SAFE_INTEGER_MAX := 9007199254740991

  // ---------------------------------------------------------------- key order

  /** Place a member in an ascending list; a key already there is overwritten. */
  function Insert(m: Member, sorted: Dict): (r: Dict)
    ensures |r| > 0
  {
    if sorted == [] || Less(m.key, sorted[0].key) then [m] + sorted
    else if m.key == sorted[0].key then [m] + sorted[1..]
    else [sorted[0]] + Insert(m, sorted[1..])
  }

  /** `_sort_keys`: every object, at every depth, with its members in key order. */
  function SortKeys(v: Json): Json
    decreases v, 0
  {
    match v
    case Arr(items) => Arr(SortItems(items))
    case Obj(members) => Obj(SortMembers(members))
    case _ => v
  }

  function SortItems(items: seq<Json>): seq<Json>
    decreases items, 0
  {
    if items == [] then [] else [SortKeys(items[0])] + SortItems(items[1..])
  }

  function SortMembers(members: Dict): Dict
    decreases members, 0
  {
    if members == [] then []
    else
      var m := members[0];
      Insert(Member(m.key, SortKeys(m.value)), SortMembers(members[1..]))
  }

  // ---------------------------------------------------------------- the printer

  function EscapeChar(c: char): (s: string)
    ensures s != ""
  {
    match c
    case '\"' => "\\\""
    case '\\' => "\\\\"
    case '\n' => "\\n"
    case '\r' => "\\r"
    case '\t' => "\\t"
    case '\U{8}' => "\\b"
    case '\U{c}' => "\\f"
    case _ => if c < ' ' then "\\u00" + [HexChar(c as int / 16), HexChar(c as int % 16)] else [c]
  }

  function Escape(s: string): string {
    if s == "" then "" else EscapeChar(s[0]) + Escape(s[1..])
  }

  function StringText(s: string): string {
    "\"" + Escape(s) + "\""
  }

  /** `json.dumps(v, separators=(",", ":"), ensure_ascii=False)`. */
  function Print(v: Json): string
    decreases v, 0
  {
    match v
    case Null => "null"
    case Bool(b) => if b then "true" else "false"
    case Int(n) => IntText(n)
    case Float(repr, _) => repr
    case Str(s) => StringText(s)
    case Arr(items) => "[" + PrintItems(items) + "]"
    case Obj(members) => "{" + PrintMembers(members) + "}"
  }

  function PrintItems(items: seq<Json>): string
    decreases items, 0
  {
    if items == [] then ""
    else if |items| == 1 then Print(items[0])
    else Print(items[0]) + ("," + PrintItems(items[1..]))
  }

  function PrintMember(m: Member): string
    decreases m, 0
  {
    StringText(m.key) + ":" + Print(m.value)
  }

  function PrintMembers(members: Dict): string
    decreases members, 0
  {
    if members == [] then ""
    else if |members| == 1 then PrintMember(members[0])
    else PrintMember(members[0]) + ("," + PrintMembers(members[1..]))
  }

  // ---------------------------------------------------------------- the number policy

  datatype Rejection = FloatProhibited | IntegerOutOfRange | NegativeZero

  datatype CanonicalizationError = CanonicalizationError(code: Rejection, path: string)

  /** `assert_canonical_number_policy`: the first offending number, children in order. */
  function NumberPolicy(v: Json, path: string): Option<CanonicalizationError>
    decreases v, 0
  {
    match v
    case Int(n) =>
      if n < SAFE_INTEGER_MIN || n > SAFE_INTEGER_MAX then Some(CanonicalizationError(IntegerOutOfRange, path)) else None
    case Float(_, negativeZero) =>
      Some(CanonicalizationError(if negativeZero then NegativeZero else FloatProhibited, path))
    case Arr(items) => ItemsPolicy(items, 0, path)
    case Obj(members) => MembersPolicy(members, path)
    case _ => None
  }

  function ItemsPolicy(items: seq<Json>, index: nat, path: string): Option<CanonicalizationError>
    decreases items, 0
  {
    if items == [] then None
    else
      var first := NumberPolicy(items[0], path + "[" + Digits(index) + "]");
      if first.Some? then first else ItemsPolicy(items[1..], index + 1, path)
  }

  function MembersPolicy(members: Dict, path: string): Option<CanonicalizationError>
    decreases members, 0
  {
    if members == [] then None
    else
      var m := members[0];
      var first := NumberPolicy(m.value, path + "." + m.key);
      if first.Some? then first else MembersPolicy(members[1..], path)
  }

  // ---------------------------------------------------------------- canonical bytes

  function StripExcluded(data: Dict): Dict {
    Without(data, HASH_EXCLUDED_FIELDS)
  }

  /** `canonicalize_for_hash`. */
  function CanonicalizeForHash(data: Dict, enforce: bool): Result<Dict, CanonicalizationError> {
    var payload := StripExcluded(data);
    var policy := if enforce then MembersPolicy(payload, "$") else None;
    if policy.Some? then Err(policy.value) else Ok(SortMembers(payload))
  }

  function CanonicalText(data: Dict): string {
    Print(Obj(SortMembers(StripExcluded(data))))
  }

  /** `canonical_json_bytes`. */
  function CanonicalJsonBytes(data: Dict, enforce: bool): Result<seq<byte>, CanonicalizationError> {
    var canonical :- CanonicalizeForHash(data, enforce);
    Ok(Utf8.Encode(Print(Obj(canonical))))
  }
}
