/** canonicalJson of markdown-store-support.ts: objects are printed with their keys
    sorted, so equal texts mean equal values up to key order. */
module CanonicalJson {
  import opened Text
  import opened JsonValues
  import opened StringOrder

  // ---- Values ----

  predicate NumberChar(c: char) {
    '0' <= c <= '9' || c == '-' || c == '+' || c == '.' || c == 'e' || c == 'E'
  }

  /** Section 6 of RFC 8259: a number starts with a minus sign or a digit. */
  predicate NumberText(t: string) {
    t != [] && (t[0] == '-' || '0' <= t[0] <= '9') && forall i :: 0 <= i < |t| ==> NumberChar(t[i])
  }

  ghost predicate DistinctKeys(members: seq<Member>) {
    forall i, j :: 0 <= i < j < |members| ==> members[i].key != members[j].key
  }

  ghost predicate WellFormed(j: Json) {
    match j
    case Number(text) => NumberText(text)
    case Array(items) => forall i :: 0 <= i < |items| ==> WellFormed(items[i])
    case Object(members) => DistinctKeys(members) && forall i :: 0 <= i < |members| ==> WellFormed(members[i].value)
    case _ => true
  }

  /** The same JSON value: members may come in any order. */
  ghost predicate Same(a: Json, b: Json)
    decreases a
  {
    match a
    case Array(items) =>
      b.Array? && |items| == |b.items| && forall i :: 0 <= i < |items| ==> Same(items[i], b.items[i])
    case Object(members) =>
      b.Object? && |members| == |b.members| && forall i :: 0 <= i < |members| ==> Matched(members[i], b.members)
    case _ => a == b
  }

  /** Some member has this one's key and the same value. */
  ghost predicate Matched(m: Member, others: seq<Member>)
    decreases m
  {
    exists k :: 0 <= k < |others| && m.key == others[k].key && Same(m.value, others[k].value)
  }

  // ---- Printing ----

  function KeysOf(members: seq<Member>): seq<string> {
    if members == [] then [] else [members[0].key] + KeysOf(members[1..])
  }

  function Canonical(j: Json): (s: string)
    decreases j
  {
    match j
    case Null => "null"
    case Bool(b) => if b then "true" else "false"
    case Number(text) => text
    case Text(s) => Quote(s)
    case Array(items) => "[" + ItemsText(items) + "]"
    case Object(members) => "{" + MembersText(Sort(KeysOf(members)), MemberTexts(members)) + "}"
  }

  function ItemsText(items: seq<Json>): string
    decreases items
  {
    if items == [] then ""
    else if |items| == 1 then Canonical(items[0])
    else Canonical(items[0]) + "," + ItemsText(items[1..])
  }

  /** The printed value of each key. */
  function MemberTexts(members: seq<Member>): (texts: map<string, string>)
    decreases members
  {
    if members == [] then map[]
    else MemberTexts(members[1..])[members[0].key := Canonical(members[0].value)]
  }

  function TextOf(texts: map<string, string>, key: string): string {
    if key in texts then texts[key] else ""
  }

  function MembersText(keys: seq<string>, texts: map<string, string>): string {
    if keys == [] then ""
    else if |keys| == 1 then Quote(keys[0]) + ":" + TextOf(texts, keys[0])
    else Quote(keys[0]) + ":" + TextOf(texts, keys[0]) + "," + MembersText(keys[1..], texts)
  }

  // ---- Strings are printed unambiguously (section 7 of RFC 8259) ----

  lemma HexDigitsDiffer(a: nat, b: nat)
    requires a < 16 && b < 16 && HexDigit(a) == HexDigit(b)
    ensures a == b
  {
    var digits := "0123456789abcdef";
    assert digits[a] == digits[b];
  }

  /** No character's escape is a prefix of another's. */
  lemma EscapeCharsDiffer(c: char, d: char, x: string, y: string)
    requires EscapeChar(c) + x == EscapeChar(d) + y
    ensures c == d && x == y
  {
    var s := EscapeChar(c) + x;
    assert s[0] == EscapeChar(c)[0] == EscapeChar(d)[0];
    if EscapeChar(c)[0] == '\\' && EscapeChar(d)[0] == '\\' {
      assert s[1] == EscapeChar(c)[1] == EscapeChar(d)[1];
      if EscapeChar(c)[1] == 'u' {
        assert s[4] == EscapeChar(c)[4] == EscapeChar(d)[4];
        assert s[5] == EscapeChar(c)[5] == EscapeChar(d)[5];
        HexDigitsDiffer(c as int / 16, d as int / 16);
        HexDigitsDiffer(c as int % 16, d as int % 16);
      }
    }
    assert c == d;
    assert x == s[|EscapeChar(c)|..] && y == s[|EscapeChar(d)|..];
  }

  /** The rest of a string literal, with what follows it. */
  function Closing(s: string, x: string): string {
    Escape(s) + "\"" + x
  }

  lemma ClosingCons(s: string, x: string)
    requires s != []
    ensures Closing(s, x) == EscapeChar(s[0]) + Closing(s[1..], x)
    ensures Closing(s, x) != [] && Closing(s, x)[0] != '\"'
  {
    QuoteIsEscaped(s[0]);
    hide EscapeChar;
    assert EscapeChar(s[0]) + Escape(s[1..]) + "\"" + x == EscapeChar(s[0]) + (Escape(s[1..]) + "\"" + x);
  }

  lemma ClosingNil(s: string, x: string)
    requires s == []
    ensures Closing(s, x) != [] && Closing(s, x)[0] == '\"' && Closing(s, x)[1..] == x
  {
  }

  lemma QuoteIsEscaped(c: char)
    ensures EscapeChar(c)[0] != '\"'
  {
  }

  lemma {:induction false} EscapesDiffer(s: string, t: string, x: string, y: string)
    requires Closing(s, x) == Closing(t, y)
    ensures s == t && x == y
  {
    hide Closing, EscapeChar;
    if s == [] {
      ClosingNil(s, x);
      if t != [] {
        ClosingCons(t, y);
      } else {
        ClosingNil(t, y);
      }
    } else if t == [] {
      ClosingNil(t, y);
      ClosingCons(s, x);
    } else {
      ClosingCons(s, x);
      ClosingCons(t, y);
      EscapeCharsDiffer(s[0], t[0], Closing(s[1..], x), Closing(t[1..], y));
      EscapesDiffer(s[1..], t[1..], x, y);
      assert s == [s[0]] + s[1..] && t == [t[0]] + t[1..];
    }
  }

  lemma QuotesDiffer(s: string, t: string, x: string, y: string)
    requires Quote(s) + x == Quote(t) + y
    ensures s == t && x == y
  {
    hide Escape;
    assert (Quote(s) + x)[1..] == Closing(s, x);
    assert (Quote(t) + y)[1..] == Closing(t, y);
    EscapesDiffer(s, t, x, y);
  }

  // ---- Numbers end where no number character follows (section 6 of RFC 8259) ----

  /** What can follow a value: nothing, or a separator or closing bracket. */
  predicate Ended(x: string) {
    x == [] || x[0] == ',' || x[0] == ']' || x[0] == '}'
  }

  lemma FirstOfConcat(u: string, y: string)
    requires u != []
    ensures u + y != [] && (u + y)[0] == u[0]
  {
  }

  lemma {:induction false} NumbersDiffer(t: string, u: string, x: string, y: string)
    requires (forall i :: 0 <= i < |t| ==> NumberChar(t[i])) && (forall i :: 0 <= i < |u| ==> NumberChar(u[i]))
    requires Ended(x) && Ended(y) && t + x == u + y
    ensures t == u && x == y
  {
    if t == [] {
      assert t + x == x;
      if u != [] {
        FirstOfConcat(u, y);
      } else {
        assert u + y == y;
      }
    } else if u == [] {
      FirstOfConcat(t, x);
    } else {
      assert t[0] == (t + x)[0] == (u + y)[0] == u[0];
      assert (t + x)[1..] == t[1..] + x && (u + y)[1..] == u[1..] + y;
      NumbersDiffer(t[1..], u[1..], x, y);
      assert t == [t[0]] + t[1..] && u == [u[0]] + u[1..];
    }
  }

  // ---- The first character tells the kind of value (section 3 of RFC 8259) ----

  function Kind(j: Json): char {
    match j
    case Null => 'n'
    case Bool(b) => if b then 't' else 'f'
    case Number(_) => '0'
    case Text(_) => '\"'
    case Array(_) => '['
    case Object(_) => '{'
  }

  function KindOf(c: char): char {
    if c == '-' || '0' <= c <= '9' then '0' else c
  }

  lemma FirstCharacter(j: Json)
    requires WellFormed(j)
    ensures Canonical(j) != [] && KindOf(Canonical(j)[0]) == Kind(j)
    ensures Canonical(j)[0] !in {']', '}', ','}
  {
    hide ItemsText, MembersText, MemberTexts, Escape, Sort;
  }

  lemma SameKind(a: Json, b: Json, x: string, y: string)
    requires WellFormed(a) && WellFormed(b) && Canonical(a) + x == Canonical(b) + y
    ensures Kind(a) == Kind(b)
  {
    FirstCharacter(a);
    FirstCharacter(b);
    hide Canonical, WellFormed;
    assert Canonical(a)[0] == (Canonical(a) + x)[0] == (Canonical(b) + y)[0] == Canonical(b)[0];
  }

  // ---- Object members ----

  function Find(members: seq<Member>, key: string): (i: int)
    ensures -1 <= i < |members|
    ensures i >= 0 ==> members[i].key == key
    ensures i == -1 ==> forall k :: 0 <= k < |members| ==> members[k].key != key
  {
    if members == [] then -1
    else if members[0].key == key then 0
    else
      var i := Find(members[1..], key);
      if i == -1 then -1 else i + 1
  }

  lemma {:induction false} MemberTextsAre(members: seq<Member>, i: nat)
    requires DistinctKeys(members) && i < |members|
    ensures members[i].key in MemberTexts(members) && MemberTexts(members)[members[i].key] == Canonical(members[i].value)
  {
    hide Canonical;
    if i > 0 {
      MemberTextsAre(members[1..], i - 1);
    }
  }

  lemma {:induction false} KeysOfAre(members: seq<Member>)
    ensures |KeysOf(members)| == |members| && forall i :: 0 <= i < |members| ==> KeysOf(members)[i] == members[i].key
  {
    if members != [] {
      KeysOfAre(members[1..]);
    }
  }

  lemma SortedKeys(members: seq<Member>)
    ensures |Sort(KeysOf(members))| == |members|
    ensures forall key :: key in Sort(KeysOf(members)) <==> exists i :: 0 <= i < |members| && members[i].key == key
  {
    SortIsSort(KeysOf(members));
    KeysOfAre(members);
    hide Sort, KeysOf, Sorted;
    var keys, sorted := KeysOf(members), Sort(KeysOf(members));
    assert |multiset(sorted)| == |multiset(keys)|;
    forall key
      ensures key in sorted <==> key in keys
    {
      assert key in multiset(sorted) <==> key in multiset(keys);
    }
  }

  lemma MemberText(members: seq<Member>, key: string)
    requires DistinctKeys(members) && Find(members, key) >= 0
    ensures TextOf(MemberTexts(members), key) == Canonical(members[Find(members, key)].value)
  {
    hide MemberTexts, Canonical;
    MemberTextsAre(members, Find(members, key));
  }

  // ---- Equal texts, equal values ----

  /** A list's text after "[", with what follows the list. */
  function ItemsRest(items: seq<Json>, x: string): string {
    ItemsText(items) + "]" + x
  }

  function AfterItem(items: seq<Json>, x: string): string
    requires items != []
  {
    if |items| == 1 then "]" + x else "," + ItemsRest(items[1..], x)
  }

  lemma ItemsRestIs(items: seq<Json>, x: string)
    ensures items == [] ==> ItemsRest(items, x) == "]" + x
    ensures items != [] ==> ItemsRest(items, x) == Canonical(items[0]) + AfterItem(items, x)
  {
    hide Canonical;
    if |items| > 1 {
      assert Canonical(items[0]) + "," + ItemsText(items[1..]) + "]" + x == Canonical(items[0]) + ("," + (ItemsText(items[1..]) + "]" + x));
    } else if |items| == 1 {
      assert Canonical(items[0]) + "]" + x == Canonical(items[0]) + ("]" + x);
    }
  }

  lemma AfterItemIs(items: seq<Json>, x: string)
    requires items != []
    ensures Ended(AfterItem(items, x)) && AfterItem(items, x) != []
    ensures |items| == 1 ==> AfterItem(items, x)[0] == ']' && AfterItem(items, x)[1..] == x
    ensures |items| > 1 ==> AfterItem(items, x)[0] == ',' && AfterItem(items, x)[1..] == ItemsRest(items[1..], x)
  {
    hide ItemsRest;
  }

  /** An object's text after "{", with what follows the object. */
  function MembersRest(keys: seq<string>, texts: map<string, string>, x: string): string {
    MembersText(keys, texts) + "}" + x
  }

  function AfterMember(keys: seq<string>, texts: map<string, string>, x: string): string
    requires keys != []
  {
    if |keys| == 1 then "}" + x else "," + MembersRest(keys[1..], texts, x)
  }

  lemma MembersRestIs(keys: seq<string>, texts: map<string, string>, x: string)
    ensures keys == [] ==> MembersRest(keys, texts, x) == "}" + x
    ensures keys != [] ==> MembersRest(keys, texts, x) == Quote(keys[0]) + (":" + (TextOf(texts, keys[0]) + AfterMember(keys, texts, x)))
  {
    hide Quote, TextOf;
    if |keys| > 1 {
      assert Quote(keys[0]) + ":" + TextOf(texts, keys[0]) + "," + MembersText(keys[1..], texts) + "}" + x
          == Quote(keys[0]) + (":" + (TextOf(texts, keys[0]) + ("," + (MembersText(keys[1..], texts) + "}" + x))));
    } else if |keys| == 1 {
      assert Quote(keys[0]) + ":" + TextOf(texts, keys[0]) + "}" + x == Quote(keys[0]) + (":" + (TextOf(texts, keys[0]) + ("}" + x)));
    }
  }

  lemma AfterMemberIs(keys: seq<string>, texts: map<string, string>, x: string)
    requires keys != []
    ensures Ended(AfterMember(keys, texts, x)) && AfterMember(keys, texts, x) != []
    ensures |keys| == 1 ==> AfterMember(keys, texts, x)[0] == '}' && AfterMember(keys, texts, x)[1..] == x
    ensures |keys| > 1 ==> AfterMember(keys, texts, x)[0] == ',' && AfterMember(keys, texts, x)[1..] == MembersRest(keys[1..], texts, x)
  {
    hide MembersRest;
  }

  lemma QuoteFirst(s: string, x: string)
    ensures Quote(s) + x != [] && (Quote(s) + x)[0] == '\"'
  {
    hide Escape;
  }

  lemma SameMembers(ma: seq<Member>, mb: seq<Member>, keys: seq<string>)
    requires |ma| == |mb| && DistinctKeys(ma)
    requires forall i :: 0 <= i < |ma| ==> ma[i].key in keys
    requires forall k :: k in keys ==> Find(ma, k) >= 0 && Find(mb, k) >= 0 && Same(ma[Find(ma, k)].value, mb[Find(mb, k)].value)
    ensures Same(Object(ma), Object(mb))
  {
    forall i | 0 <= i < |ma|
      ensures Matched(ma[i], mb)
    {
      hide Same;
      var key := ma[i].key;
      assert Find(ma, key) == i;
      assert mb[Find(mb, key)].key == key;
    }
  }

  lemma ArraysAreSame(a: seq<Json>, b: seq<Json>)
    requires |a| == |b| && forall i :: 0 <= i < |a| ==> Same(a[i], b[i])
    ensures Same(Array(a), Array(b))
  {
  }

  /** A printed value ends where it must: whatever follows, two texts can only agree
      when the values and the rests agree. */
  lemma {:induction false} Unambiguous(a: Json, b: Json, x: string, y: string)
    requires WellFormed(a) && WellFormed(b) && Ended(x) && Ended(y) && Canonical(a) + x == Canonical(b) + y
    ensures Same(a, b) && x == y
    decreases a, 2
  {
    SameKind(a, b, x, y);
    if a.Array? {
      hide Same;
      ArrayUnambiguous(a.items, b.items, x, y);
    } else if a.Object? {
      hide Same;
      ObjectUnambiguous(a.members, b.members, x, y);
    } else {
      ScalarUnambiguous(a, b, x, y);
    }
  }

  lemma ScalarUnambiguous(a: Json, b: Json, x: string, y: string)
    requires WellFormed(a) && WellFormed(b) && Ended(x) && Ended(y) && Canonical(a) + x == Canonical(b) + y
    requires Kind(a) == Kind(b) && !a.Array? && !a.Object?
    ensures a == b && x == y
  {
    hide Quote, ItemsText, MembersText;
    if a.Number? {
      NumbersDiffer(a.text, b.text, x, y);
    } else if a.Text? {
      QuotesDiffer(a.s, b.s, x, y);
    } else {
      assert Canonical(a) == Canonical(b);
      assert x == (Canonical(a) + x)[|Canonical(a)|..] && y == (Canonical(b) + y)[|Canonical(b)|..];
    }
  }

  lemma {:induction false} ArrayUnambiguous(a: seq<Json>, b: seq<Json>, x: string, y: string)
    requires WellFormed(Array(a)) && WellFormed(Array(b)) && Ended(x) && Ended(y)
    requires Canonical(Array(a)) + x == Canonical(Array(b)) + y
    ensures Same(Array(a), Array(b)) && x == y
    decreases a, 2
  {
    hide ItemsText, Same;
    assert (Canonical(Array(a)) + x)[1..] == ItemsRest(a, x);
    assert (Canonical(Array(b)) + y)[1..] == ItemsRest(b, y);
    hide ItemsRest;
    ItemsUnambiguous(a, b, x, y);
    ArraysAreSame(a, b);
  }

  lemma {:induction false} ObjectUnambiguous(ma: seq<Member>, mb: seq<Member>, x: string, y: string)
    requires WellFormed(Object(ma)) && WellFormed(Object(mb)) && Ended(x) && Ended(y)
    requires Canonical(Object(ma)) + x == Canonical(Object(mb)) + y
    ensures Same(Object(ma), Object(mb)) && x == y
    decreases ma, 2
  {
    hide MembersText, MemberTexts, Sort, KeysOf, Same, DistinctKeys;
    var ka, kb := Sort(KeysOf(ma)), Sort(KeysOf(mb));
    assert (Canonical(Object(ma)) + x)[1..] == MembersRest(ka, MemberTexts(ma), x);
    assert (Canonical(Object(mb)) + y)[1..] == MembersRest(kb, MemberTexts(mb), y);
    SortedKeys(ma);
    SortedKeys(mb);
    hide MembersRest;
    MembersUnambiguous(ma, mb, ka, kb, x, y);
    SameMembers(ma, mb, ka);
  }

  lemma {:induction false} ItemsUnambiguous(a: seq<Json>, b: seq<Json>, x: string, y: string)
    requires (forall i :: 0 <= i < |a| ==> WellFormed(a[i])) && (forall i :: 0 <= i < |b| ==> WellFormed(b[i]))
    requires Ended(x) && Ended(y) && ItemsRest(a, x) == ItemsRest(b, y)
    ensures |a| == |b| && (forall i :: 0 <= i < |a| ==> Same(a[i], b[i])) && x == y
    decreases a, 1
  {
    ItemsRestIs(a, x);
    ItemsRestIs(b, y);
    if a != [] {
      FirstCharacter(a[0]);
    }
    if b != [] {
      FirstCharacter(b[0]);
    }
    hide ItemsRest, AfterItem, Canonical, WellFormed, Same;
    if a == [] {
      assert ItemsRest(a, x)[0] == ']';
      assert b == [];
      assert x == ("]" + x)[1..] && y == ("]" + y)[1..];
    } else {
      assert ItemsRest(a, x)[0] == Canonical(a[0])[0];
      assert b != [];
      AfterItemIs(a, x);
      AfterItemIs(b, y);
      Unambiguous(a[0], b[0], AfterItem(a, x), AfterItem(b, y));
      if |a| > 1 {
        ItemsUnambiguous(a[1..], b[1..], x, y);
        assert forall i :: 1 <= i < |a| ==> a[i] == a[1..][i - 1] && b[i] == b[1..][i - 1];
      }
    }
  }

  lemma {:induction false} MembersUnambiguous(ma: seq<Member>, mb: seq<Member>, ka: seq<string>, kb: seq<string>, x: string, y: string)
    requires DistinctKeys(ma) && DistinctKeys(mb)
    requires (forall i :: 0 <= i < |ma| ==> WellFormed(ma[i].value)) && (forall i :: 0 <= i < |mb| ==> WellFormed(mb[i].value))
    requires (forall k :: k in ka ==> Find(ma, k) >= 0) && (forall k :: k in kb ==> Find(mb, k) >= 0)
    requires Ended(x) && Ended(y) && MembersRest(ka, MemberTexts(ma), x) == MembersRest(kb, MemberTexts(mb), y)
    ensures ka == kb && x == y
    ensures forall k :: k in ka ==> Find(mb, k) >= 0 && Same(ma[Find(ma, k)].value, mb[Find(mb, k)].value)
    decreases ma, 1, |ka|
  {
    hide MembersRest, AfterMember, Canonical, WellFormed, Same, MemberTexts, TextOf, Quote, DistinctKeys;
    MembersRestIs(ka, MemberTexts(ma), x);
    MembersRestIs(kb, MemberTexts(mb), y);
    if ka == [] {
      assert MembersRest(ka, MemberTexts(ma), x)[0] == '}';
      if kb != [] {
        QuoteFirst(kb[0], ":" + (TextOf(MemberTexts(mb), kb[0]) + AfterMember(kb, MemberTexts(mb), y)));
      }
      assert kb == [];
      assert x == ("}" + x)[1..] && y == ("}" + y)[1..];
    } else {
      var restA := TextOf(MemberTexts(ma), ka[0]) + AfterMember(ka, MemberTexts(ma), x);
      QuoteFirst(ka[0], ":" + restA);
      assert kb != [];
      var restB := TextOf(MemberTexts(mb), kb[0]) + AfterMember(kb, MemberTexts(mb), y);
      QuotesDiffer(ka[0], kb[0], ":" + restA, ":" + restB);
      assert restA == (":" + restA)[1..] == restB;
      MemberText(ma, ka[0]);
      MemberText(mb, kb[0]);
      AfterMemberIs(ka, MemberTexts(ma), x);
      AfterMemberIs(kb, MemberTexts(mb), y);
      Unambiguous(ma[Find(ma, ka[0])].value, mb[Find(mb, kb[0])].value, AfterMember(ka, MemberTexts(ma), x), AfterMember(kb, MemberTexts(mb), y));
      if |ka| > 1 {
        MembersUnambiguous(ma, mb, ka[1..], kb[1..], x, y);
      }
      assert ka == [ka[0]] + ka[1..] && kb == [kb[0]] + kb[1..];
    }
  }

  // ---- Equal values, equal texts ----

  lemma {:induction false} MembersTextEqual(keys: seq<string>, ta: map<string, string>, tb: map<string, string>)
    requires forall k :: k in keys ==> TextOf(ta, k) == TextOf(tb, k)
    ensures MembersText(keys, ta) == MembersText(keys, tb)
  {
    hide TextOf, Quote;
    if |keys| > 1 {
      MembersTextEqual(keys[1..], ta, tb);
    }
  }

  lemma {:induction false} ItemsTextEqual(a: seq<Json>, b: seq<Json>)
    requires |a| == |b| && forall i :: 0 <= i < |a| ==> Canonical(a[i]) == Canonical(b[i])
    ensures ItemsText(a) == ItemsText(b)
  {
    hide Canonical;
    if |a| > 1 {
      ItemsTextEqual(a[1..], b[1..]);
    }
  }

  ghost predicate PrintMatched(m: Member, others: seq<Member>) {
    exists k :: 0 <= k < |others| && m.key == others[k].key && Canonical(m.value) == Canonical(others[k].value)
  }

  lemma {:induction false} SamePrints(a: Json, b: Json)
    requires WellFormed(a) && WellFormed(b) && Same(a, b)
    ensures Canonical(a) == Canonical(b)
    decreases a
  {
    hide ItemsText, MembersText, MemberTexts, Sort, KeysOf, Quote;
    if a.Array? {
      forall i | 0 <= i < |a.items|
        ensures Canonical(a.items[i]) == Canonical(b.items[i])
      {
        SamePrints(a.items[i], b.items[i]);
      }
      ItemsTextEqual(a.items, b.items);
    } else if a.Object? {
      var ma, mb := a.members, b.members;
      forall i | 0 <= i < |ma|
        ensures PrintMatched(ma[i], mb)
      {
        assert Matched(ma[i], mb);
        var k :| 0 <= k < |mb| && ma[i].key == mb[k].key && Same(ma[i].value, mb[k].value);
        SamePrints(ma[i].value, mb[k].value);
      }
      MembersPrintSame(a.members, b.members);
    }
  }

  lemma MembersPrintSame(ma: seq<Member>, mb: seq<Member>)
    requires DistinctKeys(ma) && DistinctKeys(mb) && |ma| == |mb|
    requires forall i :: 0 <= i < |ma| ==> PrintMatched(ma[i], mb)
    ensures Canonical(Object(ma)) == Canonical(Object(mb))
  {
    KeysOfAre(ma);
    KeysOfAre(mb);
    SortedKeys(ma);
    var keys := Sort(KeysOf(ma));
    forall key | key in keys
      ensures TextOf(MemberTexts(ma), key) == TextOf(MemberTexts(mb), key)
    {
      hide Canonical, MemberTexts, Sort, KeysOf;
      var i :| 0 <= i < |ma| && ma[i].key == key;
      assert PrintMatched(ma[i], mb);
      var k :| 0 <= k < |mb| && ma[i].key == mb[k].key && Canonical(ma[i].value) == Canonical(mb[k].value);
      MemberTextsAre(ma, i);
      MemberTextsAre(mb, k);
    }
    hide MembersText, MemberTexts, Sort, KeysOf, TextOf;
    MembersTextEqual(keys, MemberTexts(ma), MemberTexts(mb));
    forall key | key in KeysOf(ma)
      ensures key in KeysOf(mb)
    {
      var i :| 0 <= i < |ma| && KeysOf(ma)[i] == key;
      assert PrintMatched(ma[i], mb);
      var k :| 0 <= k < |mb| && ma[i].key == mb[k].key;
      assert KeysOf(mb)[k] == key;
    }
    ContainedKeysSort(KeysOf(ma), KeysOf(mb));
  }

  /** canonicalJson is injective on JSON values up to the order of object keys, and
      does not depend on that order. */
  lemma CanonicalIffSame(a: Json, b: Json)
    requires WellFormed(a) && WellFormed(b)
    ensures Canonical(a) == Canonical(b) <==> Same(a, b)
  {
    if Canonical(a) == Canonical(b) {
      Unambiguous(a, b, "", "");
    } else if Same(a, b) {
      SamePrints(a, b);
    }
  }
}
