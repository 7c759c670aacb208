/** Canonical bytes identify JSON values: two float-free artifacts have the same canonical bytes
    exactly when they mean the same once the excluded fields are dropped. */
module CanonicalMeaning {
  import opened Wrappers
  import opened Text
  import opened Json
  import opened CanonicalJson
  import JsonReader
  import Utf8

  // ---------------------------------------------------------------- normal forms

  /** `key` precedes every key of `members`. */
  predicate Below(key: string, members: Dict) {
    forall i :: 0 <= i < |members| ==> Less(key, members[i].key)
  }

  /** Members strictly ascending by key, at every depth. */
  predicate Normal(v: Json)
    decreases v, 0
  {
    match v
    case Arr(items) => NormalItems(items)
    case Obj(members) => NormalMembers(members)
    case _ => true
  }

  predicate NormalItems(items: seq<Json>)
    decreases items, 0
  {
    items == [] || (Normal(items[0]) && NormalItems(items[1..]))
  }

  predicate NormalMembers(members: Dict)
    decreases members, 0
  {
    members == [] || (var m := members[0]; Normal(m.value) && Below(m.key, members[1..]) && NormalMembers(members[1..]))
  }

  // ---------------------------------------------------------------- sorting

  lemma {:induction false} InsertBelow(key: string, m: Member, sorted: Dict)
    requires Below(key, sorted) && Less(key, m.key)
    ensures Below(key, Insert(m, sorted))
  {
    if sorted != [] && !Less(m.key, sorted[0].key) && m.key != sorted[0].key {
      InsertBelow(key, m, sorted[1..]);
    }
  }

  lemma BelowTransitive(low: string, key: string, members: Dict)
    requires Less(low, key) && Below(key, members)
    ensures Below(low, members)
  {
    forall i | 0 <= i < |members| ensures Less(low, members[i].key) {
      LessTransitive(low, key, members[i].key);
    }
  }

  lemma {:induction false} InsertKeepsNormal(m: Member, sorted: Dict)
    requires Normal(m.value) && NormalMembers(sorted)
    ensures NormalMembers(Insert(m, sorted))
    ensures Fields(Insert(m, sorted)) == Fields(sorted)[m.key := Meaning(m.value)]
  {
    if sorted != [] {
      var first, rest := sorted[0], sorted[1..];
      LessTrichotomy(m.key, first.key);
      if Less(m.key, first.key) {
        BelowTransitive(m.key, first.key, rest);
        assert ([m] + sorted)[1..] == sorted;
      } else if m.key == first.key {
        assert ([m] + rest)[1..] == rest;
      } else {
        InsertKeepsNormal(m, rest);
        InsertBelow(first.key, m, rest);
        assert ([first] + Insert(m, rest))[1..] == Insert(m, rest);
      }
    }
  }

  /** Sorting puts a value in normal form and does not change what it means. */
  lemma {:induction false} SortKeysMeaning(v: Json)
    ensures Normal(SortKeys(v)) && Meaning(SortKeys(v)) == Meaning(v)
    decreases v, 0
  {
    match v
    case Arr(items) => SortItemsMeaning(items);
    case Obj(members) => SortMembersMeaning(members);
    case _ =>
  }

  lemma {:induction false} SortItemsMeaning(items: seq<Json>)
    ensures NormalItems(SortItems(items)) && Meanings(SortItems(items)) == Meanings(items)
    decreases items, 0
  {
    if items != [] {
      SortKeysMeaning(items[0]);
      SortItemsMeaning(items[1..]);
      assert SortItems(items)[1..] == SortItems(items[1..]);
    }
  }

  lemma {:induction false} SortMembersMeaning(members: Dict)
    ensures NormalMembers(SortMembers(members)) && Fields(SortMembers(members)) == Fields(members)
    decreases members, 0
  {
    if members != [] {
      var m := members[0];
      SortKeysMeaning(m.value);
      SortMembersMeaning(members[1..]);
      InsertKeepsNormal(Member(m.key, SortKeys(m.value)), SortMembers(members[1..]));
    }
  }

  lemma {:induction false} NormalPairs(members: Dict, i: nat, j: nat)
    requires NormalMembers(members) && i < j < |members|
    ensures Less(members[i].key, members[j].key)
  {
    if i > 0 {
      NormalPairs(members[1..], i - 1, j - 1);
    } else {
      assert members[1..][j - 1] == members[j];
    }
  }

  /** The keys of a sorted object are those of the object, and of any two the earlier one is a proper
      beginning of the later one or has the lower character where they first differ. */
  lemma SortedKeys(members: Dict, i: nat, j: nat)
    requires i < j < |SortMembers(members)|
    ensures var a, b := SortMembers(members)[i].key, SortMembers(members)[j].key;
            exists k :: 0 <= k <= |a| && k < |b| && a[..k] == b[..k] && (k == |a| || a[k] < b[k])
    ensures forall key :: Has(SortMembers(members), key) <==> Has(members, key)
  {
    hide Less;
    SortMembersMeaning(members);
    NormalPairs(SortMembers(members), i, j);
    LessMeaning(SortMembers(members)[i].key, SortMembers(members)[j].key);
    forall key ensures Has(SortMembers(members), key) <==> Has(members, key) {
      FieldsGet(members, key);
      FieldsGet(SortMembers(members), key);
    }
  }

  // ---------------------------------------------------------------- uniqueness of the order

  lemma {:induction false} FieldsAbove(key: string, members: Dict)
    requires Below(key, members)
    ensures forall k :: k in Fields(members) ==> Less(key, k)
    ensures key !in Fields(members)
  {
    LessTrichotomy(key, key);
    if members != [] {
      assert Below(key, members[1..]);
      FieldsAbove(key, members[1..]);
      assert Less(key, members[0].key);
    }
  }

  lemma FirstKeyInFields(members: Dict)
    ensures members != [] ==> members[0].key in Fields(members)
  {
  }

  /** A meaning has one normal form. */
  lemma {:induction false} NormalUnique(a: Json, b: Json)
    requires Normal(a) && Normal(b) && Meaning(a) == Meaning(b)
    ensures a == b
    decreases a, 0
  {
    match a
    case Arr(items) => NormalUniqueItems(items, b.items);
    case Obj(members) => NormalUniqueMembers(members, b.members);
    case _ =>
  }

  lemma {:induction false} NormalUniqueItems(a: seq<Json>, b: seq<Json>)
    requires NormalItems(a) && NormalItems(b) && Meanings(a) == Meanings(b)
    ensures a == b
    decreases a, 0
  {
    assert |a| == |Meanings(a)| == |Meanings(b)| == |b|;
    if a != [] {
      assert Meanings(a)[0] == Meanings(b)[0];
      assert Meanings(a)[1..] == Meanings(a[1..]) && Meanings(b)[1..] == Meanings(b[1..]);
      NormalUnique(a[0], b[0]);
      NormalUniqueItems(a[1..], b[1..]);
      assert a == [a[0]] + a[1..] == [b[0]] + b[1..] == b;
    }
  }

  lemma {:induction false} NormalUniqueMembers(a: Dict, b: Dict)
    requires NormalMembers(a) && NormalMembers(b) && Fields(a) == Fields(b)
    ensures a == b
    decreases a, 0
  {
    FirstKeyInFields(a);
    FirstKeyInFields(b);
    if a != [] && b != [] {
      FieldsAbove(a[0].key, a[1..]);
      FieldsAbove(b[0].key, b[1..]);
      assert a[0].key in Fields(b) && b[0].key in Fields(a);
      LessTrichotomy(a[0].key, b[0].key);
      assert a[0].key == b[0].key;
      assert Fields(a[1..]) == Fields(a) - {a[0].key};
      assert Fields(b[1..]) == Fields(b) - {b[0].key};
      assert Meaning(a[0].value) == Fields(a)[a[0].key];
      NormalUnique(a[0].value, b[0].value);
      NormalUniqueMembers(a[1..], b[1..]);
      assert a == [a[0]] + a[1..] == [b[0]] + b[1..] == b;
    }
  }

  // ---------------------------------------------------------------- floats

  lemma {:induction false} InsertFloatFree(m: Member, sorted: Dict)
    requires FloatFree(m.value) && FloatFreeMembers(sorted)
    ensures FloatFreeMembers(Insert(m, sorted))
  {
    if sorted != [] && !Less(m.key, sorted[0].key) && m.key != sorted[0].key {
      InsertFloatFree(m, sorted[1..]);
    }
  }

  lemma {:induction false} SortKeysFloatFree(v: Json)
    requires FloatFree(v)
    ensures FloatFree(SortKeys(v))
    decreases v, 0
  {
    match v
    case Arr(items) => SortItemsFloatFree(items);
    case Obj(members) => SortMembersFloatFree(members);
    case _ =>
  }

  lemma {:induction false} SortItemsFloatFree(items: seq<Json>)
    requires FloatFreeItems(items)
    ensures FloatFreeItems(SortItems(items))
    decreases items, 0
  {
    if items != [] {
      SortKeysFloatFree(items[0]);
      SortItemsFloatFree(items[1..]);
    }
  }

  lemma {:induction false} SortMembersFloatFree(members: Dict)
    requires FloatFreeMembers(members)
    ensures FloatFreeMembers(SortMembers(members))
    decreases members, 0
  {
    if members != [] {
      var m := members[0];
      SortKeysFloatFree(m.value);
      SortMembersFloatFree(members[1..]);
      InsertFloatFree(Member(m.key, SortKeys(m.value)), SortMembers(members[1..]));
    }
  }

  /** How a character of a text is printed: as itself, but for the quotation mark, the backslash and the
      control characters. */
  lemma EscapeMeaning(c: char)
    ensures c as int >= 32 && c != '\"' && c != '\\' ==> EscapeChar(c) == [c]
    ensures EscapeChar('\"') == "\\\"" && EscapeChar('\\') == "\\\\"
    ensures c as int < 32 ==>
              EscapeChar(c) == match c case '\n' => "\\n" case '\r' => "\\r" case '\t' => "\\t" case '\U{8}' => "\\b" case '\U{c}' => "\\f"
                               case _ => "\\u00" + ["0123456789abcdef"[c as int / 16], "0123456789abcdef"[c as int % 16]]
  {
    if c as int < 32 {
      HexCharMeaning(c as int / 16);
      HexCharMeaning(c as int % 16);
    }
  }

  // ---------------------------------------------------------------- the theorems

  /** Two artifacts that mean the same once the excluded fields are dropped. */
  ghost predicate SameBody(a: Dict, b: Dict) {
    var dropped := {"signature_or_digest", "artifact_digest", "signature"};
    Fields(a) - dropped == Fields(b) - dropped
  }

  /** What a digest covers: every field but the three integrity fields of the top level. */
  lemma StrippedFields(d: Dict)
    ensures Fields(StripExcluded(d)) == Fields(d) - {"signature_or_digest", "artifact_digest", "signature"}
  {
    FieldsWithout(d, HASH_EXCLUDED_FIELDS);
  }

  /** Member order never reaches the canonical bytes. */
  lemma SameBodySameText(a: Dict, b: Dict)
    requires SameBody(a, b)
    ensures CanonicalText(a) == CanonicalText(b)
  {
    StrippedFields(a);
    StrippedFields(b);
    SortMembersMeaning(StripExcluded(a));
    SortMembersMeaning(StripExcluded(b));
    NormalUniqueMembers(SortMembers(StripExcluded(a)), SortMembers(StripExcluded(b)));
  }

  lemma CanonicalTextIffSameBody(a: Dict, b: Dict)
    requires FloatFreeMembers(StripExcluded(a)) && FloatFreeMembers(StripExcluded(b))
    ensures CanonicalText(a) == CanonicalText(b) <==> SameBody(a, b)
  {
    StrippedFields(a);
    StrippedFields(b);
    if CanonicalText(a) == CanonicalText(b) {
      var sa, sb := SortMembers(StripExcluded(a)), SortMembers(StripExcluded(b));
      SortMembersFloatFree(StripExcluded(a));
      SortMembersFloatFree(StripExcluded(b));
      JsonReader.PrintInjective(Obj(sa), Obj(sb));
      SortMembersMeaning(StripExcluded(a));
      SortMembersMeaning(StripExcluded(b));
    } else if SameBody(a, b) {
      SameBodySameText(a, b);
    }
  }

  /** Canonical bytes are equal exactly when the bodies mean the same: integrity fields are dropped
      at the top level only, members compare by key at every depth and arrays in order. */
  lemma CanonicalBytesIffSameBody(a: Dict, b: Dict)
    requires FloatFreeMembers(StripExcluded(a)) && FloatFreeMembers(StripExcluded(b))
    ensures CanonicalJsonBytes(a, false) == CanonicalJsonBytes(b, false) <==> SameBody(a, b)
  {
    CanonicalTextIffSameBody(a, b);
    if Utf8.Encode(CanonicalText(a)) == Utf8.Encode(CanonicalText(b)) {
      Utf8.EncodeInjective(CanonicalText(a), CanonicalText(b));
    }
  }

  // ---------------------------------------------------------------- the number policy

  /** Every number at every depth is a safe integer. */
  predicate NumbersSafe(v: Json)
    decreases v, 0
  {
    match v
    case Int(n) => -9007199254740991 <= n <= 9007199254740991
    case Float(_, _) => false
    case Arr(items) => ItemsSafe(items)
    case Obj(members) => MembersSafe(members)
    case _ => true
  }

  predicate ItemsSafe(items: seq<Json>)
    decreases items, 0
  {
    forall i :: 0 <= i < |items| ==> NumbersSafe(items[i])
  }

  predicate MembersSafe(members: Dict)
    decreases members, 0
  {
    forall i :: 0 <= i < |members| ==> NumbersSafe(members[i].value)
  }

  /** The policy raises exactly on a value that holds a float or an unsafe integer somewhere. */
  lemma {:induction false} PolicyIffNumbersSafe(v: Json, path: string)
    ensures NumberPolicy(v, path).None? <==> NumbersSafe(v)
    decreases v, 0
  {
    match v
    case Arr(items) => ItemsPolicyIffSafe(items, 0, path);
    case Obj(members) => MembersPolicyIffSafe(members, path);
    case _ =>
  }

  lemma {:induction false} ItemsPolicyIffSafe(items: seq<Json>, index: nat, path: string)
    ensures ItemsPolicy(items, index, path).None? <==> ItemsSafe(items)
    decreases items, 0
  {
    if items != [] {
      PolicyIffNumbersSafe(items[0], path + "[" + Digits(index) + "]");
      ItemsPolicyIffSafe(items[1..], index + 1, path);
      assert items == [items[0]] + items[1..];
    }
  }

  lemma {:induction false} MembersPolicyIffSafe(members: Dict, path: string)
    ensures MembersPolicy(members, path).None? <==> MembersSafe(members)
    decreases members, 0
  {
    if members != [] {
      PolicyIffNumbersSafe(members[0].value, path + "." + members[0].key);
      MembersPolicyIffSafe(members[1..], path);
      assert members == [members[0]] + members[1..];
    }
  }

  /** Every number of a value with its path, in document order. */
  function Numbers(v: Json, path: string): seq<(string, Json)>
    decreases v, 0
  {
    match v
    case Int(_) => [(path, v)]
    case Float(_, _) => [(path, v)]
    case Arr(items) => ItemNumbers(items, 0, path)
    case Obj(members) => MemberNumbers(members, path)
    case _ => []
  }

  function ItemNumbers(items: seq<Json>, index: nat, path: string): seq<(string, Json)>
    decreases items, 0
  {
    if items == [] then []
    else Numbers(items[0], path + "[" + Digits(index) + "]") + ItemNumbers(items[1..], index + 1, path)
  }

  function MemberNumbers(members: Dict, path: string): seq<(string, Json)>
    decreases members, 0
  {
    if members == [] then []
    else
      var m := members[0];
      Numbers(m.value, path + "." + m.key) + MemberNumbers(members[1..], path)
  }

  function Rejected(v: Json): Option<Rejection> {
    match v
    case Int(n) => if SAFE_INTEGER_MIN <= n <= SAFE_INTEGER_MAX then None else Some(IntegerOutOfRange)
    case Float(_, z) => Some(if z then NegativeZero else FloatProhibited)
    case _ => None
  }

  function FirstRejected(numbers: seq<(string, Json)>): Option<CanonicalizationError> {
    if numbers == [] then None
    else if Rejected(numbers[0].1).Some? then Some(CanonicalizationError(Rejected(numbers[0].1).value, numbers[0].0))
    else FirstRejected(numbers[1..])
  }

  lemma {:induction false} FirstRejectedConcat(a: seq<(string, Json)>, b: seq<(string, Json)>)
    ensures FirstRejected(a + b) == if FirstRejected(a).Some? then FirstRejected(a) else FirstRejected(b)
  {
    if a == [] {
      assert a + b == b;
    } else {
      assert (a + b)[1..] == a[1..] + b;
      FirstRejectedConcat(a[1..], b);
    }
  }

  /** The walk that raises stops at the first offending number of the document, and names it. */
  lemma {:induction false} PolicyRaisesFirst(v: Json, path: string)
    ensures NumberPolicy(v, path) == FirstRejected(Numbers(v, path))
    decreases v, 0
  {
    match v
    case Arr(items) => ItemsPolicyRaisesFirst(items, 0, path);
    case Obj(members) => MembersPolicyRaisesFirst(members, path);
    case _ =>
  }

  lemma {:induction false} ItemsPolicyRaisesFirst(items: seq<Json>, index: nat, path: string)
    ensures ItemsPolicy(items, index, path) == FirstRejected(ItemNumbers(items, index, path))
    decreases items, 0
  {
    if items != [] {
      var p := path + "[" + Digits(index) + "]";
      PolicyRaisesFirst(items[0], p);
      ItemsPolicyRaisesFirst(items[1..], index + 1, path);
      FirstRejectedConcat(Numbers(items[0], p), ItemNumbers(items[1..], index + 1, path));
    }
  }

  lemma {:induction false} MembersPolicyRaisesFirst(members: Dict, path: string)
    ensures MembersPolicy(members, path) == FirstRejected(MemberNumbers(members, path))
    decreases members, 0
  {
    if members != [] {
      var p := path + "." + members[0].key;
      PolicyRaisesFirst(members[0].value, p);
      MembersPolicyRaisesFirst(members[1..], path);
      FirstRejectedConcat(Numbers(members[0].value, p), MemberNumbers(members[1..], path));
    }
  }

  /** What the policy accepts holds no float. */
  lemma {:induction false} SafeIsFloatFree(v: Json)
    requires NumbersSafe(v)
    ensures FloatFree(v)
    decreases v, 0
  {
    match v
    case Arr(items) => SafeItemsFloatFree(items);
    case Obj(members) => SafeMembersFloatFree(members);
    case _ =>
  }

  lemma {:induction false} SafeItemsFloatFree(items: seq<Json>)
    requires ItemsSafe(items)
    ensures FloatFreeItems(items)
    decreases items, 0
  {
    if items != [] {
      SafeIsFloatFree(items[0]);
      SafeItemsFloatFree(items[1..]);
    }
  }

  lemma {:induction false} SafeMembersFloatFree(members: Dict)
    requires MembersSafe(members)
    ensures FloatFreeMembers(members)
    decreases members, 0
  {
    if members != [] {
      SafeIsFloatFree(members[0].value);
      SafeMembersFloatFree(members[1..]);
    }
  }

  /** When an artifact has canonical bytes: always without the number policy, and under it when every number
      it covers is safe; else the first offending number below "$" is named. */
  lemma CanonicalBytesDefined(d: Dict)
    ensures CanonicalJsonBytes(d, false).Ok?
    ensures CanonicalJsonBytes(d, true).Ok? <==> MembersSafe(StripExcluded(d))
    ensures CanonicalJsonBytes(d, true).Err? ==> FirstRejected(MemberNumbers(StripExcluded(d), "$")) == Some(CanonicalJsonBytes(d, true).error)
    ensures CanonicalJsonBytes(d, true).Ok? ==> CanonicalJsonBytes(d, true) == CanonicalJsonBytes(d, false)
  {
    MembersPolicyIffSafe(StripExcluded(d), "$");
    MembersPolicyRaisesFirst(StripExcluded(d), "$");
    hide MembersPolicy, MembersSafe, FirstRejected, MemberNumbers, SortMembers, Utf8.Encode, Print;
  }

  /** Under the number policy canonical bytes identify the artifact's body outright. */
  lemma ReleaseBytesIdentifyBody(a: Dict, b: Dict)
    requires CanonicalJsonBytes(a, true).Ok? && CanonicalJsonBytes(b, true).Ok?
    ensures CanonicalJsonBytes(a, true) == CanonicalJsonBytes(b, true) <==> SameBody(a, b)
    ensures FloatFreeMembers(StripExcluded(a)) && FloatFreeMembers(StripExcluded(b))
  {
    MembersPolicyIffSafe(StripExcluded(a), "$");
    MembersPolicyIffSafe(StripExcluded(b), "$");
    SafeMembersFloatFree(StripExcluded(a));
    SafeMembersFloatFree(StripExcluded(b));
    CanonicalBytesIffSameBody(a, b);
  }
}
