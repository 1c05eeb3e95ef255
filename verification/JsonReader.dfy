/** A reader of JSON texts without insignificant white space, from the grammar of RFC 8259,
    and what it makes of the texts that canonicalJson prints. */
module JsonReader {
  import opened Text
  import opened JsonValues
  import opened StringOrder
  import opened CanonicalJson

  datatype Read<+T> = Fail | Done(value: T, rest: string)

  // ---- Strings (section 7 of RFC 8259) ----

  predicate HexChar(c: char) {
    '0' <= c <= '9' || 'a' <= c <= 'f' || 'A' <= c <= 'F'
  }

  function HexValue(c: char): (n: nat)
    requires HexChar(c)
    ensures n < 16
  {
    if c <= '9' then c as int - '0' as int else if c <= 'F' then c as int - 'A' as int + 10 else c as int - 'a' as int + 10
  }

  /** Four hexadecimal digits; surrogates are not characters. */
  function ReadCode(t: string): (r: Read<char>)
    ensures r.Done? ==> |r.rest| < |t|
  {
    if |t| < 4 || !HexChar(t[0]) || !HexChar(t[1]) || !HexChar(t[2]) || !HexChar(t[3]) then Fail
    else
      var code := 0x1000 * HexValue(t[0]) + 0x100 * HexValue(t[1]) + 0x10 * HexValue(t[2]) + HexValue(t[3]);
      if 0xD800 <= code < 0xE000 then Fail else Done(code as char, t[4..])
  }

  /** What follows a backslash. */
  function ReadEscape(t: string): (r: Read<char>)
    ensures r.Done? ==> |r.rest| < |t|
  {
    if t == [] then Fail
    else
      match t[0]
      case '\"' => Done('\"', t[1..])
      case '\\' => Done('\\', t[1..])
      case '/' => Done('/', t[1..])
      case 'b' => Done(8 as char, t[1..])
      case 'f' => Done(12 as char, t[1..])
      case 'n' => Done('\n', t[1..])
      case 'r' => Done('\r', t[1..])
      case 't' => Done('\t', t[1..])
      case 'u' => ReadCode(t[1..])
      case _ => Fail
  }

  function ReadChar(t: string): (r: Read<char>)
    ensures r.Done? ==> |r.rest| < |t|
  {
    if t == [] || t[0] == '\"' || t[0] < ' ' then Fail
    else if t[0] == '\\' then ReadEscape(t[1..])
    else Done(t[0], t[1..])
  }

  /** The characters of a string up to its closing quotation mark. */
  function ReadChars(t: string): (r: Read<string>)
    ensures r.Done? ==> |r.rest| < |t|
    decreases |t|
  {
    if t != [] && t[0] == '\"' then Done("", t[1..])
    else
      var c := ReadChar(t);
      if c.Fail? then Fail
      else
        var more := ReadChars(c.rest);
        if more.Fail? then Fail else Done([c.value] + more.value, more.rest)
  }

  // ---- Values (sections 3 to 6 of RFC 8259) ----

  /** The characters of numbers. */
  predicate InNumber(c: char) {
    c in "0123456789+-.eE"
  }

  /** The longest run of them. */
  function NumberRun(t: string): (n: nat)
    ensures n <= |t| && (forall i :: 0 <= i < n ==> InNumber(t[i])) && (n < |t| ==> !InNumber(t[n]))
  {
    if t == [] || !InNumber(t[0]) then 0 else 1 + NumberRun(t[1..])
  }

  function ReadNumber(t: string): (r: Read<Json>)
    ensures r.Done? ==> |r.rest| < |t|
  {
    if t == [] || !(t[0] == '-' || '0' <= t[0] <= '9') then Fail
    else Done(Number(t[..NumberRun(t)]), t[NumberRun(t)..])
  }

  function ReadValue(t: string): (r: Read<Json>)
    ensures r.Done? ==> |r.rest| < |t|
    decreases |t|, 0
  {
    if "null" <= t then Done(Null, t[4..])
    else if "true" <= t then Done(Bool(true), t[4..])
    else if "false" <= t then Done(Bool(false), t[5..])
    else if "\"" <= t then
      var s := ReadChars(t[1..]);
      if s.Fail? then Fail else Done(Text(s.value), s.rest)
    else if "[]" <= t then Done(Array([]), t[2..])
    else if "[" <= t then
      var items := ReadItems(t[1..]);
      if items.Fail? then Fail else Done(Array(items.value), items.rest)
    else if "{}" <= t then Done(Object([]), t[2..])
    else if "{" <= t then
      var members := ReadMembers(t[1..]);
      if members.Fail? then Fail else Done(Object(members.value), members.rest)
    else ReadNumber(t)
  }

  /** One or more values, separated by commas and closed by a bracket. */
  function ReadItems(t: string): (r: Read<seq<Json>>)
    ensures r.Done? ==> |r.rest| < |t|
    decreases |t|, 1
  {
    var item := ReadValue(t);
    if item.Fail? then Fail
    else if "]" <= item.rest then Done([item.value], item.rest[1..])
    else if "," <= item.rest then
      var more := ReadItems(item.rest[1..]);
      if more.Fail? then Fail else Done([item.value] + more.value, more.rest)
    else Fail
  }

  /** One or more members, separated by commas and closed by a brace. */
  function ReadMembers(t: string): (r: Read<seq<Member>>)
    ensures r.Done? ==> |r.rest| < |t|
    decreases |t|, 1
  {
    var key := if "\"" <= t then ReadChars(t[1..]) else Fail;
    if key.Fail? || !(":" <= key.rest) then Fail
    else
      var value := ReadValue(key.rest[1..]);
      if value.Fail? then Fail
      else if "}" <= value.rest then Done([Member(key.value, value.value)], value.rest[1..])
      else if "," <= value.rest then
        var more := ReadMembers(value.rest[1..]);
        if more.Fail? then Fail else Done([Member(key.value, value.value)] + more.value, more.rest)
      else Fail
  }

  // ---- Strings are read back ----

  lemma HexIsRead(d: nat)
    requires d < 16
    ensures HexChar(HexDigit(d)) && HexValue(HexDigit(d)) == d
  {
    assert "0123456789abcdef"[d] == HexDigit(d);
  }

  lemma CharIsRead(c: char, x: string)
    ensures ReadChar(EscapeChar(c) + x) == Done(c, x)
  {
    var code, e := c as int, EscapeChar(c);
    var t := e + x;
    assert t[0] == e[0];
    if c == '\"' || c == '\\' || code == 8 || code == 12 || c == '\n' || c == '\r' || c == '\t' {
      assert |e| == 2 && t[1] == e[1];
      assert t[1..][1..] == x;
    } else if code < 32 {
      HexIsRead(code / 16);
      HexIsRead(code % 16);
      hide HexDigit, HexValue;
      var u := t[1..][1..];
      assert u == e[2..] + x && u[4..] == x;
      assert e[2..] == ['0', '0', HexDigit(code / 16), HexDigit(code % 16)];
      HexIsRead(0);
      ZeroIsRead();
    } else {
      assert t[1..] == x;
    }
  }

  lemma ZeroIsRead()
    ensures HexChar('0') && HexValue('0') == 0
  {
  }

  lemma {:induction false} CharsAreRead(s: string, x: string)
    ensures ReadChars(Closing(s, x)) == Done(s, x)
  {
    hide Closing, EscapeChar, ReadChar;
    if s == [] {
      ClosingNil(s, x);
      assert s == "";
    } else {
      ClosingCons(s, x);
      CharIsRead(s[0], Closing(s[1..], x));
      CharsAreRead(s[1..], x);
      assert s == [s[0]] + s[1..];
    }
  }

  lemma QuoteIsRead(s: string, x: string)
    ensures "\"" <= Quote(s) + x && ReadChars((Quote(s) + x)[1..]) == Done(s, x)
  {
    hide Escape, ReadChars;
    assert (Quote(s) + x)[1..] == Closing(s, x);
    CharsAreRead(s, x);
  }

  /** The forms that a reader takes for one character: itself, a backslash and a letter or
      sign, or a backslash, a u and four hexadecimal digits. */
  lemma FormsOf(c: char, e: string)
    requires ReadChar(e) == Done(c, "")
    ensures e != [] && (e[0] != '\\' ==> e == [c] && c != '\"' && c >= ' ')
    ensures e[0] == '\\' ==> |e| == 2 || (|e| == 6 && e[1] == 'u' && ReadCode(e[2..]) == Done(c, ""))
    ensures e[0] == '\\' && |e| == 2 ==> e == EscapeChar(c) || c == '/'
  {
    hide ReadCode;
    if e[0] != '\\' {
      assert e == [e[0]] + e[1..];
    } else {
      assert e == [e[0], e[1]] + e[1..][1..];
      assert e[1..][1..] == e[2..];
      if e[1] == 'u' {
        LengthOfCode(c, e[2..]);
      }
    }
  }

  lemma LengthOfCode(c: char, t: string)
    requires ReadCode(t) == Done(c, "")
    ensures |t| == 4 && HexChar(t[0]) && HexChar(t[1]) && HexChar(t[2]) && HexChar(t[3])
    ensures 0x1000 * HexValue(t[0]) + 0x100 * HexValue(t[1]) + 0x10 * HexValue(t[2]) + HexValue(t[3]) == c as int
  {
    hide HexChar, HexValue;
    assert t == t[..4] + t[4..];
  }

  lemma LengthOfEscape(c: char)
    ensures |EscapeChar(c)| == 1 <==> EscapeChar(c) == [c]
    ensures |EscapeChar(c)| == 1 || |EscapeChar(c)| == 2 || (|EscapeChar(c)| == 6 && c < ' ')
    ensures |EscapeChar(c)| == 1 <==> c >= ' ' && c != '\"' && c != '\\'
    ensures |EscapeChar(c)| == 6 ==> EscapeChar(c) == "\\u00" + [HexDigit(c as int / 16), HexDigit(c as int % 16)]
  {
    hide HexDigit;
  }

  /** JSON.stringify prints a character in the shortest form that a reader takes for it;
      of the forms with four hexadecimal digits it prints the one in lower case. */
  lemma EscapeIsShortest(c: char, e: string)
    requires ReadChar(e) == Done(c, "")
    ensures |EscapeChar(c)| <= |e|
    ensures |EscapeChar(c)| == |e| && (|e| == 1 || forall i :: 0 <= i < |e| ==> !('A' <= e[i] <= 'F')) ==> e == EscapeChar(c)
  {
    FormsOf(c, e);
    LengthOfEscape(c);
    hide EscapeChar, ReadChar, ReadCode;
    if |EscapeChar(c)| == |e| == 6 && forall i :: 0 <= i < |e| ==> !('A' <= e[i] <= 'F') {
      CodeIsHex(c, e[2..]);
      assert e == [e[0], e[1]] + e[2..];
    }
  }

  lemma CodeIsHex(c: char, t: string)
    requires ReadCode(t) == Done(c, "") && c < ' ' && forall i :: 0 <= i < |t| ==> !('A' <= t[i] <= 'F')
    ensures t == ['0', '0', HexDigit(c as int / 16), HexDigit(c as int % 16)]
  {
    LengthOfCode(c, t);
    hide ReadCode;
    LowerHexIs(t[0]);
    LowerHexIs(t[1]);
    LowerHexIs(t[2]);
    LowerHexIs(t[3]);
    hide *;
    TwoDigits(HexValue(t[0]), HexValue(t[1]), HexValue(t[2]), HexValue(t[3]), c as int);
    ZeroHexDigit();
  }

  lemma TwoDigits(a: nat, b: nat, c: nat, d: nat, code: nat)
    requires a < 16 && b < 16 && c < 16 && d < 16 && 0x1000 * a + 0x100 * b + 0x10 * c + d == code && code < 32
    ensures a == 0 && b == 0 && c == code / 16 && d == code % 16
  {
  }

  lemma ZeroHexDigit()
    ensures HexDigit(0) == '0'
  {
  }

  lemma LowerHexIs(c: char)
    requires HexChar(c) && !('A' <= c <= 'F')
    ensures HexDigit(HexValue(c)) == c
  {
    var digits := "0123456789abcdef";
    assert digits[HexValue(c)] == c;
  }

  // ---- Values are read back ----

  lemma NumberCharIs(c: char)
    ensures NumberChar(c) <==> InNumber(c)
  {
  }

  lemma {:induction false} RunOfNumber(text: string, x: string)
    requires (forall i :: 0 <= i < |text| ==> NumberChar(text[i])) && Ended(x)
    ensures NumberRun(text + x) == |text|
  {
    if text == [] {
      assert text + x == x;
    } else {
      assert (text + x)[1..] == text[1..] + x;
      NumberCharIs(text[0]);
      hide NumberChar, InNumber;
      RunOfNumber(text[1..], x);
    }
  }

  lemma NumberIsRead(text: string, x: string)
    requires NumberText(text) && Ended(x)
    ensures ReadValue(text + x) == Done(Number(text), x)
  {
    hide NumberRun, InNumber, NumberChar, ReadChars, ReadItems, ReadMembers;
    RunOfNumber(text, x);
    assert (text + x)[0] == text[0];
    assert (text + x)[..|text|] == text && (text + x)[|text|..] == x;
  }

  /** The numbers that can be printed are those that can be read. */
  lemma NumberTextIffRead(text: string)
    ensures NumberText(text) <==> ReadValue(text) == Done(Number(text), "")
  {
    hide NumberRun, InNumber, NumberChar, ReadChars, ReadItems, ReadMembers;
    if NumberText(text) {
      NumberIsRead(text, "");
      assert text + "" == text;
    }
    if ReadValue(text) == Done(Number(text), "") {
      assert text[..NumberRun(text)] == text;
      forall i | 0 <= i < |text|
        ensures NumberChar(text[i])
      {
        NumberCharIs(text[i]);
      }
    }
  }

  lemma ScalarIsRead(j: Json, x: string)
    requires WellFormed(j) && Ended(x) && !j.Array? && !j.Object?
    ensures ReadValue(Canonical(j) + x) == Done(j, x)
  {
    hide NumberRun, Quote, ReadChars;
    var t := Canonical(j) + x;
    match j
    case Null => assert t[4..] == x;
    case Bool(b) => assert t[0] == Canonical(j)[0] && t[|Canonical(j)|..] == x;
    case Number(text) => NumberIsRead(text, x);
    case Text(s) =>
      QuoteIsRead(s, x);
      assert t[0] == '\"';
  }

  /** In every object, at every depth, the keys are distinct and in ascending order. */
  ghost predicate KeysAscend(j: Json) {
    match j
    case Array(items) => forall i :: 0 <= i < |items| ==> KeysAscend(items[i])
    case Object(members) =>
      && (forall i :: 0 <= i < |members| ==> KeysAscend(members[i].value))
      && (forall i, k :: 0 <= i < k < |members| ==> members[i].key != members[k].key && Ascends(members[i].key, members[k].key))
    case _ => true
  }

  /** The text that canonicalJson prints reads as the value it was given, with the keys of
      every object in ascending order, and nothing of what follows it. */
  lemma {:induction false} CanonicalIsRead(j: Json, x: string) returns (r: Json)
    requires WellFormed(j) && Ended(x)
    ensures ReadValue(Canonical(j) + x) == Done(r, x) && Same(j, r) && KeysAscend(r)
    decreases j, 2
  {
    if j.Array? {
      r := ArrayIsRead(j.items, x);
    } else if j.Object? {
      r := ObjectIsRead(j.members, x);
    } else {
      r := j;
      ScalarIsRead(j, x);
    }
  }

  lemma ArrayText(items: seq<Json>, x: string)
    ensures var t := Canonical(Array(items)) + x; t != [] && t[0] == '[' && t[1..] == ItemsRest(items, x)
  {
    hide ItemsText;
  }

  lemma BracketReads(t: string, items: seq<Json>, x: string)
    requires t != [] && t[0] == '[' && |t| > 1 && t[1] != ']' && ReadItems(t[1..]) == Done(items, x)
    ensures ReadValue(t) == Done(Array(items), x)
  {
    hide ReadItems, ReadMembers, ReadChars, ReadNumber;
  }

  lemma EmptyBracketsRead(t: string, x: string)
    requires t == "[]" + x
    ensures ReadValue(t) == Done(Array([]), x)
  {
    hide ReadItems, ReadMembers, ReadChars, ReadNumber;
    assert t[0] == '[' && t[2..] == x;
  }

  lemma BraceReads(t: string, members: seq<Member>, x: string)
    requires t != [] && t[0] == '{' && |t| > 1 && t[1] != '}' && ReadMembers(t[1..]) == Done(members, x)
    ensures ReadValue(t) == Done(Object(members), x)
  {
    hide ReadItems, ReadMembers, ReadChars, ReadNumber;
  }

  lemma EmptyBracesRead(t: string, x: string)
    requires t == "{}" + x
    ensures ReadValue(t) == Done(Object([]), x)
  {
    hide ReadItems, ReadMembers, ReadChars, ReadNumber;
    assert t[0] == '{' && t[2..] == x;
  }

  lemma {:induction false} ArrayIsRead(items: seq<Json>, x: string) returns (r: Json)
    requires WellFormed(Array(items)) && Ended(x)
    ensures ReadValue(Canonical(Array(items)) + x) == Done(r, x) && Same(Array(items), r) && KeysAscend(r)
    decreases items, 2
  {
    var t := Canonical(Array(items)) + x;
    ArrayText(items, x);
    ItemsRestIs(items, x);
    hide Canonical, ItemsRest, AfterItem, Same, KeysAscend, ReadItems, ReadValue;
    if items == [] {
      r := Array([]);
      assert t == ['['] + t[1..];
      EmptyBracketsRead(t, x);
      ArraysAreSame(items, []);
      ArrayAscends([]);
    } else {
      FirstCharacter(items[0]);
      assert t[1] == Canonical(items[0])[0];
      var rs := ItemsAreRead(items, x);
      BracketReads(t, rs, x);
      r := Array(rs);
      ArraysAreSame(items, rs);
      ArrayAscends(rs);
    }
  }

  lemma ArrayAscends(items: seq<Json>)
    requires forall i :: 0 <= i < |items| ==> KeysAscend(items[i])
    ensures KeysAscend(Array(items))
  {
  }

  lemma {:induction false} ItemsAreRead(items: seq<Json>, x: string) returns (rs: seq<Json>)
    requires items != [] && (forall i :: 0 <= i < |items| ==> WellFormed(items[i])) && Ended(x)
    ensures ReadItems(ItemsRest(items, x)) == Done(rs, x)
    ensures |rs| == |items| && forall i :: 0 <= i < |items| ==> Same(items[i], rs[i]) && KeysAscend(rs[i])
    decreases items, 1
  {
    hide Canonical, ItemsRest, AfterItem, Same, KeysAscend, WellFormed, ReadValue;
    ItemsRestIs(items, x);
    AfterItemIs(items, x);
    var r := CanonicalIsRead(items[0], AfterItem(items, x));
    if |items| == 1 {
      rs := [r];
      assert "]" <= AfterItem(items, x);
    } else {
      assert "," <= AfterItem(items, x) && !("]" <= AfterItem(items, x));
      var more := ItemsAreRead(items[1..], x);
      rs := [r] + more;
      assert forall i :: 1 <= i < |items| ==> items[i] == items[1..][i - 1] && rs[i] == more[i - 1];
    }
  }

  lemma ObjectText(members: seq<Member>, x: string)
    ensures var t := Canonical(Object(members)) + x; t != [] && t[0] == '{' && t[1..] == MembersRest(Sort(KeysOf(members)), MemberTexts(members), x)
  {
    hide MembersText, MemberTexts, Sort, KeysOf;
  }

  /** The members that are read: the sorted keys, each with its value. */
  ghost predicate ReadAs(members: seq<Member>, keys: seq<string>, rs: seq<Member>) {
    && |rs| == |keys|
    && forall i :: 0 <= i < |keys| ==>
         && rs[i].key == keys[i] && Find(members, keys[i]) >= 0
         && Same(members[Find(members, keys[i])].value, rs[i].value) && KeysAscend(rs[i].value)
  }

  lemma {:induction false} ObjectIsRead(members: seq<Member>, x: string) returns (r: Json)
    requires WellFormed(Object(members)) && Ended(x)
    ensures ReadValue(Canonical(Object(members)) + x) == Done(r, x) && Same(Object(members), r) && KeysAscend(r)
    decreases members, 2
  {
    hide Canonical, MembersRest, AfterMember, Same, KeysAscend, ReadMembers, Sort, KeysOf, MemberTexts, ReadAs, Quote;
    var t := Canonical(Object(members)) + x;
    var keys, texts := Sort(KeysOf(members)), MemberTexts(members);
    ObjectText(members, x);
    SortedKeys(members);
    MembersRestIs(keys, texts, x);
    hide ReadValue;
    if keys == [] {
      r := Object([]);
      assert t == ['{'] + t[1..];
      EmptyBracesRead(t, x);
      NothingToRead(members);
    } else {
      QuoteFirst(keys[0], ":" + (TextOf(texts, keys[0]) + AfterMember(keys, texts, x)));
      assert t[1] == '\"';
      var rs := MembersAreRead(members, keys, x);
      BraceReads(t, rs, x);
      r := Object(rs);
      ReadMembersAreSame(members, rs);
    }
  }

  lemma NothingToRead(members: seq<Member>)
    requires members == []
    ensures Same(Object(members), Object([])) && KeysAscend(Object([]))
  {
  }

  lemma ReadMembersAreSame(members: seq<Member>, rs: seq<Member>)
    requires DistinctKeys(members) && ReadAs(members, Sort(KeysOf(members)), rs)
    ensures Same(Object(members), Object(rs)) && KeysAscend(Object(rs))
  {
    hide Same, Ascends, Sort, KeysOf, KeysAscend, ReadAs;
    var keys := Sort(KeysOf(members));
    SortedKeys(members);
    KeysOfAre(members);
    SortAscends(KeysOf(members));
    assert Distinct(KeysOf(members));
    SortKeepsDistinct(KeysOf(members));
    ReadKeysAreFound(members, keys, rs);
    SameMembers(members, rs, keys);
    ObjectAscends(members, keys, rs);
  }

  lemma ReadKeysAreFound(members: seq<Member>, keys: seq<string>, rs: seq<Member>)
    requires ReadAs(members, keys, rs) && Distinct(keys)
    ensures |rs| == |keys|
    ensures forall k :: k in keys ==> Find(members, k) >= 0 && Find(rs, k) >= 0 && Same(members[Find(members, k)].value, rs[Find(rs, k)].value)
  {
    hide Same, KeysAscend, Find;
    forall k | k in keys
      ensures Find(members, k) >= 0 && Find(rs, k) >= 0 && Same(members[Find(members, k)].value, rs[Find(rs, k)].value)
    {
      var i :| 0 <= i < |keys| && keys[i] == k;
      assert rs[i].key == k;
      assert Find(rs, k) >= 0;
      assert Find(rs, k) == i;
    }
  }

  lemma ObjectAscends(members: seq<Member>, keys: seq<string>, rs: seq<Member>)
    requires ReadAs(members, keys, rs) && Distinct(keys) && forall i, j :: 0 <= i < j < |keys| ==> Ascends(keys[i], keys[j])
    ensures KeysAscend(Object(rs))
  {
    hide Same, Ascends;
  }

  lemma FirstMemberIsRead(keys: seq<string>, texts: map<string, string>, x: string, r: Json)
    requires keys != [] && ReadValue(TextOf(texts, keys[0]) + AfterMember(keys, texts, x)) == Done(r, AfterMember(keys, texts, x))
    ensures |keys| == 1 ==> ReadMembers(MembersRest(keys, texts, x)) == Done([Member(keys[0], r)], x)
    ensures |keys| > 1 ==>
              var more := ReadMembers(MembersRest(keys[1..], texts, x));
              more.Done? ==> ReadMembers(MembersRest(keys, texts, x)) == Done([Member(keys[0], r)] + more.value, more.rest)
  {
    hide MembersRest, AfterMember, ReadValue, ReadChars, TextOf, Quote;
    var value, after := TextOf(texts, keys[0]), AfterMember(keys, texts, x);
    MembersRestIs(keys, texts, x);
    AfterMemberIs(keys, texts, x);
    QuoteIsRead(keys[0], ":" + (value + after));
    assert (":" + (value + after))[1..] == value + after;
  }

  lemma {:induction false} MembersAreRead(members: seq<Member>, keys: seq<string>, x: string) returns (rs: seq<Member>)
    requires DistinctKeys(members) && (forall i :: 0 <= i < |members| ==> WellFormed(members[i].value))
    requires keys != [] && (forall k :: k in keys ==> Find(members, k) >= 0) && Ended(x)
    ensures ReadMembers(MembersRest(keys, MemberTexts(members), x)) == Done(rs, x) && ReadAs(members, keys, rs)
    decreases members, 1, |keys|
  {
    hide Canonical, MembersRest, AfterMember, Same, KeysAscend, WellFormed, ReadValue, ReadMembers, MemberTexts, TextOf, DistinctKeys, Find;
    var key, texts := keys[0], MemberTexts(members);
    MemberText(members, key);
    AfterMemberIs(keys, texts, x);
    var r := CanonicalIsRead(members[Find(members, key)].value, AfterMember(keys, texts, x));
    FirstMemberIsRead(keys, texts, x, r);
    rs := [Member(key, r)];
    if |keys| > 1 {
      var more := MembersAreRead(members, keys[1..], x);
      rs := rs + more;
      assert forall i :: 1 <= i < |keys| ==> keys[i] == keys[1..][i - 1] && rs[i] == more[i - 1];
    }
  }
}
