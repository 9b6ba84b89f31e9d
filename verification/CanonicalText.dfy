/** The canonical text of a JSON request value: object members sorted by key at every depth.
    Strings are sequences of UTF-16 code units, as in the runtime. */
module CanonicalText {

  type CodeUnit = x: int | 0 <= x < 0x10000

  type JsString = seq<CodeUnit>

  /** A JSON value. A number is given by the text the runtime prints for it. */
  datatype Json =
    | Null
    | Bool(b: bool)
    | Number(text: JsString)
    | Str(s: JsString)
    | Array(items: seq<Json>)
    | Object(members: seq<Member>)

  datatype Member = Member(key: JsString, value: Json)

  const QUOTE: CodeUnit := 34
  const COMMA: CodeUnit := 44
  const COLON: CodeUnit := 58
  const BACKSLASH: CodeUnit := 92
  const OPEN_BRACKET: CodeUnit := 91
  const CLOSE_BRACKET: CodeUnit := 93
  const OPEN_BRACE: CodeUnit := 123
  const CLOSE_BRACE: CodeUnit := 125
  const LOWER_U: CodeUnit := 117

  // ---------------------------------------------------------------------------------------
  // String text
  // ---------------------------------------------------------------------------------------

  function Hex(d: int): (h: CodeUnit)
    requires 0 <= d < 16
  {
    if d < 10 then 48 + d else 87 + d
  }

  function UnicodeEscape(c: CodeUnit): JsString {
    [BACKSLASH, LOWER_U, Hex(c / 16 / 16 / 16), Hex(c / 16 / 16 % 16), Hex(c / 16 % 16), Hex(c % 16)]
  }

  predicate HighSurrogate(c: CodeUnit) { 0xD800 <= c < 0xDC00 }

  predicate LowSurrogate(c: CodeUnit) { 0xDC00 <= c < 0xE000 }

  /** How many code units the next piece of a string takes: a surrogate pair goes as one. */
  function Taken(s: JsString): (n: nat)
    requires s != []
    ensures 1 <= n <= 2 && n <= |s|
  {
    if |s| > 1 && HighSurrogate(s[0]) && LowSurrogate(s[1]) then 2 else 1
  }

  /** The text of that piece; lone surrogates and control characters are escaped. */
  function Code(s: JsString): (code: JsString)
    requires s != []
    ensures code != []
  {
    var c := s[0];
    if Taken(s) == 2 then s[..2]
    else if c == QUOTE then [BACKSLASH, QUOTE]
    else if c == BACKSLASH then [BACKSLASH, BACKSLASH]
    else if c == 8 then [BACKSLASH, 98]
    else if c == 12 then [BACKSLASH, 102]
    else if c == 10 then [BACKSLASH, 110]
    else if c == 13 then [BACKSLASH, 114]
    else if c == 9 then [BACKSLASH, 116]
    else if c < 32 || HighSurrogate(c) || LowSurrogate(c) then UnicodeEscape(c)
    else [c]
  }

  function EscapeAll(s: JsString): JsString {
    if s == [] then [] else Code(s) + EscapeAll(s[Taken(s)..])
  }

  function Quote(s: JsString): JsString { [QUOTE] + EscapeAll(s) + [QUOTE] }

  // ---------------------------------------------------------------------------------------
  // Sorting members
  // ---------------------------------------------------------------------------------------

  /** The default sort order of strings: by code units. */
  predicate Less(a: JsString, b: JsString) {
    b != [] && (a == [] || a[0] < b[0] || (a[0] == b[0] && Less(a[1..], b[1..])))
  }

  function InsertMember(sorted: seq<Member>, m: Member): (r: seq<Member>)
    ensures multiset(r) == multiset(sorted) + multiset{m}
  {
    if sorted == [] then [m]
    else if Less(m.key, sorted[0].key) then
      assert [m] + sorted == [m] + ([sorted[0]] + sorted[1..]);
      [m] + sorted
    else
      assert sorted == [sorted[0]] + sorted[1..];
      [sorted[0]] + InsertMember(sorted[1..], m)
  }

  function SortMembers(members: seq<Member>): (r: seq<Member>)
    ensures multiset(r) == multiset(members)
  {
    if members == [] then []
    else
      assert members == members[..|members| - 1] + [members[|members| - 1]];
      InsertMember(SortMembers(members[..|members| - 1]), members[|members| - 1])
  }

  lemma SortHas(members: seq<Member>, m: Member)
    ensures m in SortMembers(members) <==> m in members
  {
    assert m in multiset(SortMembers(members)) <==> m in multiset(members);
  }

  /** The members still to be written all lie inside the value being written. */
  ghost predicate Inside(ms: seq<Member>, whole: Json) {
    forall k :: 0 <= k < |ms| ==> ms[k].value < whole
  }

  lemma SortedInside(members: seq<Member>)
    ensures Inside(SortMembers(members), Object(members))
  {
    var s := SortMembers(members);
    forall k | 0 <= k < |s| ensures s[k].value < Object(members) {
      SortHas(members, s[k]);
      var j :| 0 <= j < |members| && members[j] == s[k];
      assert members[j].value < Object(members);
    }
  }

  // ---------------------------------------------------------------------------------------
  // The text
  // ---------------------------------------------------------------------------------------

  function Stringify(v: Json): JsString
    decreases v, 1, 0
  {
    match v
    case Null => [110, 117, 108, 108]
    case Bool(b) => if b then [116, 114, 117, 101] else [102, 97, 108, 115, 101]
    case Number(text) => text
    case Str(s) => Quote(s)
    case Array(items) => [OPEN_BRACKET] + ItemsText(items, v) + [CLOSE_BRACKET]
    case Object(members) =>
      SortedInside(members);
      [OPEN_BRACE] + MembersText(SortMembers(members), v) + [CLOSE_BRACE]
  }

  ghost predicate ItemsInside(items: seq<Json>, whole: Json) {
    forall k :: 0 <= k < |items| ==> items[k] < whole
  }

  function ItemsText(items: seq<Json>, ghost whole: Json): JsString
    requires ItemsInside(items, whole)
    decreases whole, 0, |items|
  {
    if items == [] then []
    else if |items| == 1 then Stringify(items[0])
    else Stringify(items[0]) + [COMMA] + ItemsText(items[1..], whole)
  }

  function MemberText(m: Member, ghost whole: Json): JsString
    requires m.value < whole
    decreases whole, 0, 0
  {
    Quote(m.key) + [COLON] + Stringify(m.value)
  }

  function MembersText(ms: seq<Member>, ghost whole: Json): JsString
    requires Inside(ms, whole)
    decreases whole, 0, |ms|
  {
    if ms == [] then []
    else if |ms| == 1 then MemberText(ms[0], whole)
    else MemberText(ms[0], whole) + [COMMA] + MembersText(ms[1..], whole)
  }

  // ---------------------------------------------------------------------------------------
  // Values, and when they are the same request
  // ---------------------------------------------------------------------------------------

  /** Digits, sign, point and exponent mark. */
  predicate NumberUnit(c: CodeUnit) { 48 <= c <= 57 || c == 43 || c == 45 || c == 46 || c == 101 }

  predicate NumberText(t: JsString) {
    t != [] && (48 <= t[0] <= 57 || t[0] == 45) && forall k :: 0 <= k < |t| ==> NumberUnit(t[k])
  }

  ghost predicate DistinctKeys(ms: seq<Member>) {
    forall i, j :: 0 <= i < j < |ms| ==> ms[i].key != ms[j].key
  }

  /** What the runtime's values satisfy: numbers print as numbers, objects have distinct keys. */
  ghost predicate WellFormed(v: Json)
    decreases v
  {
    match v
    case Number(text) => NumberText(text)
    case Array(items) => forall k :: 0 <= k < |items| ==> WellFormed(items[k])
    case Object(members) => DistinctKeys(members) && forall k :: 0 <= k < |members| ==> WellFormed(members[k].value)
    case _ => true
  }

  /** Equal up to the order of object members, at every depth. */
  ghost predicate SameRequest(a: Json, b: Json)
    decreases a
  {
    match (a, b)
    case (Array(xs), Array(ys)) =>
      |xs| == |ys| && forall k :: 0 <= k < |xs| ==> SameRequest(xs[k], ys[k])
    case (Object(ms), Object(ns)) =>
      |ms| == |ns| && forall i :: 0 <= i < |ms| ==> HasPartner(ms[i], ns)
    case _ => a == b
  }

  /** Some member has the same key and the same value up to order. */
  ghost predicate HasPartner(m: Member, ns: seq<Member>)
    decreases m
  {
    exists j :: 0 <= j < |ns| && ns[j].key == m.key && SameRequest(m.value, ns[j].value)
  }

  // ---------------------------------------------------------------------------------------
  // Quoted strings are read back
  // ---------------------------------------------------------------------------------------

  lemma HexIsInjective(a: int, b: int)
    requires 0 <= a < 16 && 0 <= b < 16 && Hex(a) == Hex(b)
    ensures a == b
  {
  }

  lemma UnicodeEscapeIsInjective(c: CodeUnit, d: CodeUnit)
    requires UnicodeEscape(c) == UnicodeEscape(d)
    ensures c == d
  {
    var x, y := UnicodeEscape(c), UnicodeEscape(d);
    assert x[2] == y[2] && x[3] == y[3] && x[4] == y[4] && x[5] == y[5];
    HexIsInjective(c / 16 / 16 / 16, d / 16 / 16 / 16);
    HexIsInjective(c / 16 / 16 % 16, d / 16 / 16 % 16);
    HexIsInjective(c / 16 % 16, d / 16 % 16);
    HexIsInjective(c % 16, d % 16);
  }

  lemma CodeLength(s: JsString)
    requires s != []
    ensures Code(s)[0] != QUOTE
    ensures Code(s)[0] == BACKSLASH ==> |Code(s)| == (if Code(s)[1] == LOWER_U then 6 else 2)
    ensures Code(s)[0] != BACKSLASH ==> |Code(s)| == Taken(s) && Code(s) == s[..Taken(s)]
    ensures Code(s)[0] == BACKSLASH ==> Taken(s) == 1 && |Code(s)| >= 2
    ensures Taken(s) == 2 <==> HighSurrogate(Code(s)[0])
  {
  }

  /** Equal pieces of text come from equal pieces of string. */
  lemma CodeIsInjective(s: JsString, t: JsString)
    requires s != [] && t != [] && Code(s) == Code(t)
    ensures Taken(s) == Taken(t) && s[..Taken(s)] == t[..Taken(t)]
  {
    CodeLength(s);
    CodeLength(t);
    if Code(s)[0] == BACKSLASH {
      if Code(s)[1] == LOWER_U {
        UnicodeEscapeIsInjective(s[0], t[0]);
      }
      assert s[0] == t[0];
    }
  }

  lemma CodeIsPrefixFree(s: JsString, t: JsString, x: JsString, y: JsString)
    requires s != [] && t != [] && Code(s) + x == Code(t) + y
    ensures Code(s) == Code(t) && x == y
  {
    hide Code, Taken;
    CodeLength(s);
    CodeLength(t);
    var a, b := Code(s), Code(t);
    assert a[0] == (a + x)[0] == (b + y)[0] == b[0];
    if a[0] == BACKSLASH {
      assert a[1] == (a + x)[1] == (b + y)[1] == b[1];
    }
    assert |a| == |b|;
    assert a == (a + x)[..|a|] && b == (b + y)[..|b|];
    assert x == (a + x)[|a|..] && y == (b + y)[|b|..];
  }

  /** Escaped text begins with the closing quote only when nothing is left. */
  lemma EscapedStart(s: JsString, x: JsString)
    ensures (EscapeAll(s) + [QUOTE] + x)[0] == QUOTE <==> s == []
    ensures s == [] ==> (EscapeAll(s) + [QUOTE] + x)[1..] == x
  {
    if s == [] {
      assert EscapeAll(s) + [QUOTE] + x == [QUOTE] + x;
    } else {
      CodeLength(s);
    }
  }

  lemma EscapedUncons(s: JsString, x: JsString)
    requires s != []
    ensures EscapeAll(s) + [QUOTE] + x == Code(s) + (EscapeAll(s[Taken(s)..]) + [QUOTE] + x)
  {
    hide Code, Taken;
  }

  lemma {:induction false} EscapedIsReadBack(s: JsString, t: JsString, x: JsString, y: JsString)
    requires EscapeAll(s) + [QUOTE] + x == EscapeAll(t) + [QUOTE] + y
    ensures s == t && x == y
    decreases |s|
  {
    hide Code, EscapeAll, Taken;
    EscapedStart(s, x);
    EscapedStart(t, y);
    if s != [] && t != [] {
      var s', t' := s[Taken(s)..], t[Taken(t)..];
      EscapedUncons(s, x);
      EscapedUncons(t, y);
      CodeIsPrefixFree(s, t, EscapeAll(s') + [QUOTE] + x, EscapeAll(t') + [QUOTE] + y);
      CodeIsInjective(s, t);
      EscapedIsReadBack(s', t', x, y);
      assert s == s[..Taken(s)] + s' && t == t[..Taken(t)] + t';
    }
  }

  lemma QuoteIsReadBack(s: JsString, t: JsString, x: JsString, y: JsString)
    requires Quote(s) + x == Quote(t) + y
    ensures s == t && x == y
  {
    hide EscapeAll;
    assert (Quote(s) + x)[1..] == EscapeAll(s) + [QUOTE] + x;
    assert (Quote(t) + y)[1..] == EscapeAll(t) + [QUOTE] + y;
    EscapedIsReadBack(s, t, x, y);
  }

  // ---------------------------------------------------------------------------------------
  // Order of keys
  // ---------------------------------------------------------------------------------------

  lemma {:induction false} LessIsTotal(a: JsString, b: JsString)
    ensures Less(a, b) || a == b || Less(b, a)
    ensures !(Less(a, b) && Less(b, a)) && !(Less(a, b) && a == b)
  {
    if a != [] && b != [] && a[0] == b[0] {
      LessIsTotal(a[1..], b[1..]);
      assert a == [a[0]] + a[1..] && b == [b[0]] + b[1..];
    }
  }

  /** The strings agree before position k, where the first ends or has the smaller code unit. */
  ghost predicate DiffersAt(a: JsString, b: JsString, k: nat) {
    k <= |a| && k < |b| && a[..k] == b[..k] && (k == |a| || a[k] < b[k])
  }

  lemma SameStart(a: JsString, b: JsString, k: nat)
    requires DiffersAt(a, b, k)
    ensures k == 0 || (a != [] && a[0] == b[0])
  {
    if k > 0 { assert a[..k][0] == b[..k][0]; }
  }

  /** The order is that of the first differing code unit, a prefix coming first. */
  lemma {:induction false} LessIff(a: JsString, b: JsString)
    ensures Less(a, b) <==> exists k :: DiffersAt(a, b, k)
  {
    if a == [] || b == [] || a[0] != b[0] {
      if Less(a, b) { assert DiffersAt(a, b, 0); }
      if k: nat :| DiffersAt(a, b, k) {
        SameStart(a, b, k);
      }
    } else {
      LessIff(a[1..], b[1..]);
      if k: nat :| DiffersAt(a[1..], b[1..], k) {
        assert a[..k + 1] == [a[0]] + a[1..][..k] && b[..k + 1] == [b[0]] + b[1..][..k];
        assert DiffersAt(a, b, k + 1);
      }
      if k: nat :| DiffersAt(a, b, k) {
        assert k > 0;
        assert a[1..][..k - 1] == a[..k][1..] && b[1..][..k - 1] == b[..k][1..];
        assert DiffersAt(a[1..], b[1..], k - 1);
      }
    }
  }

  lemma {:induction false} LessIsTransitive(a: JsString, b: JsString, c: JsString)
    requires Less(a, b) && Less(b, c)
    ensures Less(a, c)
  {
    if a != [] && a[0] == b[0] == c[0] {
      LessIsTransitive(a[1..], b[1..], c[1..]);
    }
  }

  ghost predicate InOrder(ms: seq<Member>) {
    forall i, j :: 0 <= i < j < |ms| ==> Less(ms[i].key, ms[j].key)
  }

  lemma {:induction false} InsertKeepsOrder(s: seq<Member>, m: Member)
    requires InOrder(s) && forall k :: 0 <= k < |s| ==> s[k].key != m.key
    ensures InOrder(InsertMember(s, m))
  {
    hide Less;
    if s != [] {
      LessIsTotal(m.key, s[0].key);
      if Less(m.key, s[0].key) {
        forall k | 0 < k < |s| ensures Less(m.key, s[k].key) {
          LessIsTransitive(m.key, s[0].key, s[k].key);
        }
      } else {
        InsertKeepsOrder(s[1..], m);
        var r := InsertMember(s[1..], m);
        forall k | 0 <= k < |r| ensures Less(s[0].key, r[k].key) {
          assert r[k] in multiset(r);
          assert r[k] in multiset(s[1..]) || r[k] == m;
        }
      }
    }
  }

  lemma {:induction false} SortOrders(ms: seq<Member>)
    requires DistinctKeys(ms)
    ensures InOrder(SortMembers(ms)) && |SortMembers(ms)| == |ms|
  {
    assert |multiset(SortMembers(ms))| == |multiset(ms)|;
    if ms != [] {
      var front, last := ms[..|ms| - 1], ms[|ms| - 1];
      SortOrders(front);
      var s := SortMembers(front);
      forall k | 0 <= k < |s| ensures s[k].key != last.key {
        SortHas(front, s[k]);
      }
      InsertKeepsOrder(s, last);
    }
  }

  ghost predicate HasKey(ms: seq<Member>, key: JsString) {
    exists k :: 0 <= k < |ms| && ms[k].key == key
  }

  /** Two lists in strict order with the same keys have them at the same places. */
  lemma {:induction false} OrderIsUnique(a: seq<Member>, b: seq<Member>)
    requires InOrder(a) && InOrder(b) && |a| == |b|
    requires forall k :: 0 <= k < |a| ==> HasKey(b, a[k].key)
    ensures forall k :: 0 <= k < |a| ==> a[k].key == b[k].key
  {
    hide Less;
    if a != [] {
      var last := |a| - 1;
      forall k | 0 <= k < last ensures HasKey(b[..last], a[k].key) {
        LastKeyIsTaken(a, b, k);
      }
      OrderIsUnique(a[..last], b[..last]);
      assert forall k :: 0 <= k < last ==> a[..last][k].key == a[k].key && b[..last][k].key == b[k].key;
      LastKeysMatch(a, b);
    }
  }

  lemma LastKeysMatch(a: seq<Member>, b: seq<Member>)
    requires InOrder(a) && |a| == |b| > 0 && HasKey(b, a[|a| - 1].key)
    requires forall k :: 0 <= k < |a| - 1 ==> a[k].key == b[k].key
    ensures a[|a| - 1].key == b[|a| - 1].key
  {
    hide Less;
    var k :| 0 <= k < |b| && b[k].key == a[|a| - 1].key;
    LessIsTotal(a[k].key, a[|a| - 1].key);
  }

  /** A key that is not the greatest of one list is not the greatest of the other. */
  lemma LastKeyIsTaken(a: seq<Member>, b: seq<Member>, k: nat)
    requires InOrder(a) && InOrder(b) && |a| == |b| && k < |a| - 1
    requires forall i :: 0 <= i < |a| ==> HasKey(b, a[i].key)
    ensures HasKey(b[..|b| - 1], a[k].key)
  {
    hide Less;
    var last := |a| - 1;
    var i :| 0 <= i < |b| && b[i].key == a[k].key;
    var j :| 0 <= j < |b| && b[j].key == a[last].key;
    LessIsTotal(a[k].key, a[last].key);
    if i == last {
      LessIsTotal(b[j].key, b[last].key);
    }
    assert b[..last][i].key == a[k].key;
  }

  // ---------------------------------------------------------------------------------------
  // Same request, same text
  // ---------------------------------------------------------------------------------------

  lemma {:induction false} SameRequestSameText(a: Json, b: Json)
    requires WellFormed(a) && WellFormed(b) && SameRequest(a, b)
    ensures Stringify(a) == Stringify(b)
    decreases a, 1, 0
  {
    match (a, b)
    case (Array(xs), Array(ys)) => SameItemsSameText(xs, ys, a, b);
    case (Object(ms), Object(ns)) =>
      SortedInside(ms);
      SortedInside(ns);
      SortedAlike(ms, ns, a, b);
      SameMembersSameText(SortMembers(ms), SortMembers(ns), a, b);
    case _ =>
  }

  lemma {:induction false} SameItemsSameText(xs: seq<Json>, ys: seq<Json>, a: Json, b: Json)
    requires ItemsInside(xs, a) && ItemsInside(ys, b) && |xs| == |ys|
    requires forall k :: 0 <= k < |xs| ==> WellFormed(xs[k]) && WellFormed(ys[k]) && SameRequest(xs[k], ys[k])
    ensures ItemsText(xs, a) == ItemsText(ys, b)
    decreases a, 0, |xs|
  {
    if xs != [] {
      SameRequestSameText(xs[0], ys[0]);
      SameItemsSameText(xs[1..], ys[1..], a, b);
    }
  }

  lemma {:induction false} SameMembersSameText(ms: seq<Member>, ns: seq<Member>, a: Json, b: Json)
    requires Inside(ms, a) && Inside(ns, b) && |ms| == |ns|
    requires forall k :: 0 <= k < |ms| ==>
               && ms[k].key == ns[k].key && WellFormed(ms[k].value) && WellFormed(ns[k].value)
               && SameRequest(ms[k].value, ns[k].value)
    ensures MembersText(ms, a) == MembersText(ns, b)
    decreases a, 0, |ms|
  {
    if ms != [] {
      SameRequestSameText(ms[0].value, ns[0].value);
      SameMembersSameText(ms[1..], ns[1..], a, b);
    }
  }

  lemma KeysOfSame(ms: seq<Member>, ns: seq<Member>, m: Member) returns (n: Member)
    requires SameRequest(Object(ms), Object(ns)) && m in ms
    ensures n in ns && n.key == m.key && SameRequest(m.value, n.value)
  {
    assert HasPartner(m, ns);
    var j :| 0 <= j < |ns| && ns[j].key == m.key && SameRequest(m.value, ns[j].value);
    n := ns[j];
  }

  /** The members of equal requests, once sorted, stand side by side. */
  lemma SortedAlike(ms: seq<Member>, ns: seq<Member>, a: Json, b: Json)
    requires a == Object(ms) && b == Object(ns) && WellFormed(a) && WellFormed(b) && SameRequest(a, b)
    ensures var s, t := SortMembers(ms), SortMembers(ns);
            && |s| == |t|
            && forall k :: 0 <= k < |s| ==>
                 && s[k].key == t[k].key && WellFormed(s[k].value) && WellFormed(t[k].value)
                 && SameRequest(s[k].value, t[k].value)
  {
    hide Less, SortMembers;
    var s, t := SortMembers(ms), SortMembers(ns);
    SortOrders(ms);
    SortOrders(ns);
    forall k | 0 <= k < |s| ensures HasKey(t, s[k].key) {
      SortHas(ms, s[k]);
      var n := KeysOfSame(ms, ns, s[k]);
      SortHas(ns, n);
      var j :| 0 <= j < |t| && t[j] == n;
      assert t[j].key == s[k].key;
    }
    OrderIsUnique(s, t);
    forall k | 0 <= k < |s|
      ensures WellFormed(s[k].value) && WellFormed(t[k].value) && SameRequest(s[k].value, t[k].value)
    {
      SortHas(ms, s[k]);
      SortHas(ns, t[k]);
      var n := KeysOfSame(ms, ns, s[k]);
      SameKeySameMember(ns, n, t[k]);
    }
  }

  lemma SameKeySameMember(ns: seq<Member>, m: Member, n: Member)
    requires DistinctKeys(ns) && m in ns && n in ns && m.key == n.key
    ensures m == n
  {
    var i :| 0 <= i < |ns| && ns[i] == m;
    var j :| 0 <= j < |ns| && ns[j] == n;
    assert ns[i].key == ns[j].key;
  }

  // ---------------------------------------------------------------------------------------
  // Same text, same request
  // ---------------------------------------------------------------------------------------

  /** A number followed by this stops where it should. */
  ghost predicate Stops(r: JsString) { r == [] || !NumberUnit(r[0]) }

  lemma AtBoundary(t: JsString, u: JsString, x: JsString, y: JsString)
    requires |t| < |u| && t + x == u + y
    ensures x != [] && x[0] == u[|t|]
  {
    assert (t + x)[|t|] == (u + y)[|t|];
  }

  lemma {:induction false} NumberIsReadBack(t: JsString, u: JsString, x: JsString, y: JsString)
    requires forall k :: 0 <= k < |t| ==> NumberUnit(t[k])
    requires forall k :: 0 <= k < |u| ==> NumberUnit(u[k])
    requires Stops(x) && Stops(y) && t + x == u + y
    ensures t == u && x == y
  {
    if |t| < |u| {
      AtBoundary(t, u, x, y);
      assert false;
    } else if |u| < |t| {
      AtBoundary(u, t, y, x);
      assert false;
    }
    assert t == (t + x)[..|t|] && u == (u + y)[..|u|];
    assert x == (t + x)[|t|..] && y == (u + y)[|u|..];
  }

  /** What kind of value a text starts. */
  ghost function Kind(v: Json): int {
    match v
    case Null => 0
    case Bool(b) => if b then 1 else 2
    case Number(_) => 3
    case Str(_) => 4
    case Array(_) => 5
    case Object(_) => 6
  }

  ghost function KindOf(c: CodeUnit): int {
    if c == 110 then 0 else if c == 116 then 1 else if c == 102 then 2
    else if 48 <= c <= 57 || c == 45 then 3
    else if c == QUOTE then 4 else if c == OPEN_BRACKET then 5 else if c == OPEN_BRACE then 6 else 7
  }

  lemma FirstUnit(v: Json)
    requires WellFormed(v)
    ensures Stringify(v) != [] && KindOf(Stringify(v)[0]) == Kind(v)
  {
  }

  lemma SameKind(a: Json, b: Json, x: JsString, y: JsString)
    requires WellFormed(a) && WellFormed(b) && Stringify(a) + x == Stringify(b) + y
    ensures Kind(a) == Kind(b)
  {
    hide Stringify, WellFormed;
    FirstUnit(a);
    FirstUnit(b);
    assert (Stringify(a) + x)[0] == (Stringify(b) + y)[0];
  }

  lemma SameLiteral(a: Json, b: Json, x: JsString, y: JsString)
    requires Kind(a) == Kind(b) < 3 && Stringify(a) + x == Stringify(b) + y
    ensures a == b && x == y
  {
    var n := |Stringify(a)|;
    assert x == (Stringify(a) + x)[n..] && y == (Stringify(b) + y)[n..];
  }

  lemma ArrayBody(xs: seq<Json>, a: Json, x: JsString)
    requires a == Array(xs)
    ensures ItemsInside(xs, a) && (Stringify(a) + x)[1..] == ItemsText(xs, a) + [CLOSE_BRACKET] + x
  {
  }

  lemma ObjectBody(ms: seq<Member>, a: Json, x: JsString)
    requires a == Object(ms)
    ensures Inside(SortMembers(ms), a)
    ensures (Stringify(a) + x)[1..] == MembersText(SortMembers(ms), a) + [CLOSE_BRACE] + x
  {
    hide SortMembers, MembersText;
    SortedInside(ms);
    var body := MembersText(SortMembers(ms), a);
    assert Stringify(a) == [OPEN_BRACE] + body + [CLOSE_BRACE];
    assert ([OPEN_BRACE] + body + [CLOSE_BRACE] + x)[1..] == body + [CLOSE_BRACE] + x;
  }

  lemma {:induction false} SameTextSameRequest(a: Json, b: Json, x: JsString, y: JsString)
    requires WellFormed(a) && WellFormed(b) && Stops(x) && Stops(y)
    requires Stringify(a) + x == Stringify(b) + y
    ensures SameRequest(a, b) && x == y
    decreases a, 1, 0
  {
    SameKind(a, b, x, y);
    match (a, b)
    case (Number(t), Number(u)) => NumberIsReadBack(t, u, x, y);
    case (Str(s), Str(t)) => QuoteIsReadBack(s, t, x, y);
    case (Array(xs), Array(ys)) =>
      hide Stringify;
      ArrayBody(xs, a, x);
      ArrayBody(ys, b, y);
      SameTextSameItems(xs, ys, a, b, x, y);
    case (Object(ms), Object(ns)) =>
      hide Stringify, SortMembers, MembersText;
      ObjectBody(ms, a, x);
      ObjectBody(ns, b, y);
      SortedWellFormed(ms);
      SortedWellFormed(ns);
      SameTextSameMembers(SortMembers(ms), SortMembers(ns), a, b, x, y);
      SortedMatch(ms, ns);
    case _ => SameLiteral(a, b, x, y);
  }

  lemma SortedWellFormed(ms: seq<Member>)
    requires WellFormed(Object(ms))
    ensures forall k :: 0 <= k < |SortMembers(ms)| ==> WellFormed(SortMembers(ms)[k].value)
    ensures |SortMembers(ms)| == |ms|
  {
    hide SortMembers;
    SortOrders(ms);
    forall k | 0 <= k < |SortMembers(ms)| ensures WellFormed(SortMembers(ms)[k].value) {
      SortHas(ms, SortMembers(ms)[k]);
    }
  }

  /** Sorted members that match pairwise come from equal requests. */
  lemma SortedMatch(ms: seq<Member>, ns: seq<Member>)
    requires var s, t := SortMembers(ms), SortMembers(ns);
             && |s| == |t| == |ms| == |ns|
             && forall k :: 0 <= k < |s| ==> s[k].key == t[k].key && SameRequest(s[k].value, t[k].value)
    ensures SameRequest(Object(ms), Object(ns))
  {
    hide SortMembers;
    var s, t := SortMembers(ms), SortMembers(ns);
    forall i | 0 <= i < |ms| ensures HasPartner(ms[i], ns) {
      SortHas(ms, ms[i]);
      var k :| 0 <= k < |s| && s[k] == ms[i];
      SortHas(ns, t[k]);
      var j :| 0 <= j < |ns| && ns[j] == t[k];
      assert ns[j].key == ms[i].key && SameRequest(ms[i].value, ns[j].value);
    }
  }

  /** The text of a non-empty list, cut after its first element. */
  lemma ItemsUncons(xs: seq<Json>, a: Json, x: JsString)
    requires ItemsInside(xs, a) && xs != []
    ensures ItemsText(xs, a) + [CLOSE_BRACKET] + x
            == Stringify(xs[0]) + (if |xs| == 1 then [CLOSE_BRACKET] + x
                                   else [COMMA] + (ItemsText(xs[1..], a) + [CLOSE_BRACKET] + x))
  {
  }

  lemma ItemsStart(xs: seq<Json>, a: Json, x: JsString)
    requires ItemsInside(xs, a) && forall k :: 0 <= k < |xs| ==> WellFormed(xs[k])
    ensures var p := ItemsText(xs, a) + [CLOSE_BRACKET] + x;
            (p[0] == CLOSE_BRACKET <==> xs == []) && (xs == [] ==> p[1..] == x)
  {
    if xs == [] {
      assert ItemsText(xs, a) + [CLOSE_BRACKET] + x == [CLOSE_BRACKET] + x;
    } else {
      hide Stringify, ItemsText;
      FirstUnit(xs[0]);
      ItemsUncons(xs, a, x);
    }
  }

  /** What follows the first element of a list. */
  ghost function ItemsTail(xs: seq<Json>, a: Json, x: JsString): JsString
    requires ItemsInside(xs, a) && xs != []
  {
    if |xs| == 1 then [CLOSE_BRACKET] + x else [COMMA] + (ItemsText(xs[1..], a) + [CLOSE_BRACKET] + x)
  }

  lemma SameFirstItem(xs: seq<Json>, ys: seq<Json>, a: Json, b: Json, x: JsString, y: JsString)
    requires ItemsInside(xs, a) && ItemsInside(ys, b) && xs != [] && ys != []
    requires ItemsText(xs, a) + [CLOSE_BRACKET] + x == ItemsText(ys, b) + [CLOSE_BRACKET] + y
    ensures Stringify(xs[0]) + ItemsTail(xs, a, x) == Stringify(ys[0]) + ItemsTail(ys, b, y)
  {
    hide Stringify, ItemsText;
    ItemsUncons(xs, a, x);
    ItemsUncons(ys, b, y);
  }

  /** The tail tells whether the list goes on, and what follows. */
  lemma ItemsTailShape(xs: seq<Json>, a: Json, x: JsString)
    requires ItemsInside(xs, a) && xs != []
    ensures var t := ItemsTail(xs, a, x);
            && t != [] && Stops(t)
            && (t[0] == CLOSE_BRACKET <==> |xs| == 1)
            && t[1..] == (if |xs| == 1 then x else ItemsText(xs[1..], a) + [CLOSE_BRACKET] + x)
  {
    hide ItemsText;
  }

  lemma {:induction false} SameTextSameItems(xs: seq<Json>, ys: seq<Json>, a: Json, b: Json, x: JsString, y: JsString)
    requires ItemsInside(xs, a) && ItemsInside(ys, b)
    requires forall k :: 0 <= k < |xs| ==> WellFormed(xs[k])
    requires forall k :: 0 <= k < |ys| ==> WellFormed(ys[k])
    requires ItemsText(xs, a) + [CLOSE_BRACKET] + x == ItemsText(ys, b) + [CLOSE_BRACKET] + y
    ensures |xs| == |ys| && x == y
    ensures forall k :: 0 <= k < |xs| ==> SameRequest(xs[k], ys[k])
    decreases a, 0, |xs|
  {
    hide Stringify, ItemsText, SameRequest, WellFormed, Stops, ItemsTail;
    ItemsStart(xs, a, x);
    ItemsStart(ys, b, y);
    if xs != [] && ys != [] {
      SameFirstItem(xs, ys, a, b, x, y);
      ItemsTailShape(xs, a, x);
      ItemsTailShape(ys, b, y);
      SameTextSameRequest(xs[0], ys[0], ItemsTail(xs, a, x), ItemsTail(ys, b, y));
      if |xs| > 1 {
        SameTextSameItems(xs[1..], ys[1..], a, b, x, y);
        assert forall k :: 0 < k < |xs| ==> xs[k] == xs[1..][k - 1] && ys[k] == ys[1..][k - 1];
      }
    }
  }

  lemma MembersUncons(ms: seq<Member>, a: Json, x: JsString)
    requires Inside(ms, a) && ms != []
    ensures MembersText(ms, a) + [CLOSE_BRACE] + x
            == Quote(ms[0].key) + ([COLON] + (Stringify(ms[0].value) +
                 (if |ms| == 1 then [CLOSE_BRACE] + x
                  else [COMMA] + (MembersText(ms[1..], a) + [CLOSE_BRACE] + x))))
  {
  }

  lemma MembersStart(ms: seq<Member>, a: Json, x: JsString)
    requires Inside(ms, a)
    ensures var p := MembersText(ms, a) + [CLOSE_BRACE] + x;
            (p[0] == CLOSE_BRACE <==> ms == []) && (ms == [] ==> p[1..] == x)
  {
    if ms == [] {
      assert MembersText(ms, a) + [CLOSE_BRACE] + x == [CLOSE_BRACE] + x;
    } else {
      hide Stringify, MembersText;
      MembersUncons(ms, a, x);
    }
  }

  /** What follows the first member of a list. */
  ghost function MembersTail(ms: seq<Member>, a: Json, x: JsString): JsString
    requires Inside(ms, a) && ms != []
  {
    if |ms| == 1 then [CLOSE_BRACE] + x else [COMMA] + (MembersText(ms[1..], a) + [CLOSE_BRACE] + x)
  }

  lemma MembersTailShape(ms: seq<Member>, a: Json, x: JsString)
    requires Inside(ms, a) && ms != []
    ensures var t := MembersTail(ms, a, x);
            && t != [] && Stops(t)
            && (t[0] == CLOSE_BRACE <==> |ms| == 1)
            && t[1..] == (if |ms| == 1 then x else MembersText(ms[1..], a) + [CLOSE_BRACE] + x)
  {
    hide MembersText;
  }

  /** Key and colon are read back before the value. */
  lemma SameFirstKey(ms: seq<Member>, ns: seq<Member>, a: Json, b: Json, x: JsString, y: JsString)
    requires Inside(ms, a) && Inside(ns, b) && ms != [] && ns != []
    requires MembersText(ms, a) + [CLOSE_BRACE] + x == MembersText(ns, b) + [CLOSE_BRACE] + y
    ensures ms[0].key == ns[0].key
    ensures Stringify(ms[0].value) + MembersTail(ms, a, x) == Stringify(ns[0].value) + MembersTail(ns, b, y)
  {
    hide Stringify, MembersText, Quote;
    MembersUncons(ms, a, x);
    MembersUncons(ns, b, y);
    var v, w := Stringify(ms[0].value) + MembersTail(ms, a, x), Stringify(ns[0].value) + MembersTail(ns, b, y);
    QuoteIsReadBack(ms[0].key, ns[0].key, [COLON] + v, [COLON] + w);
    assert v == ([COLON] + v)[1..] && w == ([COLON] + w)[1..];
  }

  lemma {:induction false} SameTextSameMembers(
    ms: seq<Member>, ns: seq<Member>, a: Json, b: Json, x: JsString, y: JsString)
    requires Inside(ms, a) && Inside(ns, b)
    requires forall k :: 0 <= k < |ms| ==> WellFormed(ms[k].value)
    requires forall k :: 0 <= k < |ns| ==> WellFormed(ns[k].value)
    requires MembersText(ms, a) + [CLOSE_BRACE] + x == MembersText(ns, b) + [CLOSE_BRACE] + y
    ensures |ms| == |ns| && x == y
    ensures forall k :: 0 <= k < |ms| ==> ms[k].key == ns[k].key && SameRequest(ms[k].value, ns[k].value)
    decreases a, 0, |ms|
  {
    hide Stringify, MembersText, SameRequest, WellFormed, Stops, MembersTail;
    MembersStart(ms, a, x);
    MembersStart(ns, b, y);
    if ms != [] && ns != [] {
      SameFirstKey(ms, ns, a, b, x, y);
      MembersTailShape(ms, a, x);
      MembersTailShape(ns, b, y);
      SameTextSameRequest(ms[0].value, ns[0].value, MembersTail(ms, a, x), MembersTail(ns, b, y));
      if |ms| > 1 {
        SameTextSameMembers(ms[1..], ns[1..], a, b, x, y);
        assert forall k :: 0 < k < |ms| ==> ms[k] == ms[1..][k - 1] && ns[k] == ns[1..][k - 1];
      }
    }
  }

  /** Two request values get the same canonical text exactly when they are equal up to the
      order of object members, at every depth. */
  lemma CanonicalTextIsExact(a: Json, b: Json)
    requires WellFormed(a) && WellFormed(b)
    ensures Stringify(a) == Stringify(b) <==> SameRequest(a, b)
  {
    if SameRequest(a, b) {
      SameRequestSameText(a, b);
    }
    if Stringify(a) == Stringify(b) {
      SameTextSameRequest(a, b, [], []);
    }
  }

  // ---------------------------------------------------------------------------------------
  // What the text looks like
  // ---------------------------------------------------------------------------------------

  /** Between the quotes, everything but quotes, backslashes, control characters and surrogates
      stands for itself. */
  lemma {:induction false} PlainStringsStand(s: JsString)
    requires forall k :: 0 <= k < |s| ==> s[k] >= 32 && s[k] != 34 && s[k] != 92 && !(0xD800 <= s[k] < 0xE000)
    ensures Quote(s) == [34] + s + [34] && EscapeAll(s) == s
  {
    if s != [] {
      PlainStringsStand(s[1..]);
      assert Code(s) == [s[0]];
      assert s == [s[0]] + s[1..];
    }
  }

  /** Quotes and line feeds have short escapes, other control characters hexadecimal ones. */
  lemma EscapedUnits()
    ensures Code([34]) == [92, 34] && Code([92]) == [92, 92] && Code([10]) == [92, 110] && Code([9]) == [92, 116]
    ensures Code([31]) == [92, 117, 48, 48, 49, 102] && Code([0xD834]) == [92, 117, 100, 56, 51, 52]
    ensures Code([0xD834, 0xDD1E]) == [0xD834, 0xDD1E]
  {
  }

  /** Items stand in their own order between brackets, separated by commas; null, true and false
      are written out. */
  lemma TextOfTwoItems(x: Json, y: Json)
    ensures Stringify(Array([x, y])) == [91] + Stringify(x) + [44] + Stringify(y) + [93]
    ensures Stringify(Array([])) == [91, 93]
    ensures Stringify(Null) == [110, 117, 108, 108]
    ensures Stringify(Bool(true)) == [116, 114, 117, 101] && Stringify(Bool(false)) == [102, 97, 108, 115, 101]
  {
    var v := Array([x, y]);
    assert [x, y][1..] == [y];
    assert ItemsText([x, y], v) == Stringify(x) + [44] + ItemsText([y], v);
    hide Stringify;
    assert ItemsText([y], v) == Stringify(y);
  }

  /** Members stand in the order of their keys between braces, each key quoted and followed by a
      colon, separated by commas, whichever comes first in the object. */
  lemma TextOfTwoMembers(m: Member, n: Member)
    requires Less(m.key, n.key)
    ensures var text := [123] + (Quote(m.key) + [58] + Stringify(m.value)) + [44]
                        + (Quote(n.key) + [58] + Stringify(n.value)) + [125];
            Stringify(Object([m, n])) == text == Stringify(Object([n, m]))
    ensures Stringify(Object([])) == [123, 125]
  {
    hide Less, Quote;
    TwoMembersSorted(m, n);
    TwoMembersWritten([m, n], m, n);
    TwoMembersWritten([n, m], m, n);
  }

  lemma TwoMembersSorted(m: Member, n: Member)
    requires Less(m.key, n.key)
    ensures SortMembers([m, n]) == [m, n] == SortMembers([n, m])
  {
    hide Less;
    LessIsTotal(m.key, n.key);
    assert [m, n][..1] == [m] && [n, m][..1] == [n] && [m][..0] == [] && [n][..0] == [];
    assert SortMembers([m]) == [m] && SortMembers([n]) == [n];
    assert [m][1..] == [];
  }

  lemma TwoMembersWritten(members: seq<Member>, m: Member, n: Member)
    requires SortMembers(members) == [m, n]
    ensures Stringify(Object(members)) == [123] + (Quote(m.key) + [58] + Stringify(m.value)) + [44]
                                          + (Quote(n.key) + [58] + Stringify(n.value)) + [125]
  {
    hide Quote, SortMembers;
    var v := Object(members);
    SortedInside(members);
    assert [m, n][1..] == [n];
    assert MembersText([m, n], v) == MemberText(m, v) + [44] + MembersText([n], v);
    assert MembersText([n], v) == MemberText(n, v);
  }
}
