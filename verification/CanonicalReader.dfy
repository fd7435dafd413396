/**
 A reader for the canonical text (compact JSON, RFC 8259) and the proof that it undoes the printer of
 services/tool-server/approval_token.go: one text, one tree.
 */
module CanonicalReader {
  import opened JsonValues
  import opened Strings
  import opened CanonicalPrinter

  datatype Read<+T> = Failed | Done(value: T, rest: string) {
    predicate IsFailure() {
      Failed?
    }
    function PropagateFailure<U>(): Read<U>
      requires Failed?
    {
      Failed
    }
    function Extract(): (T, string)
      requires Done?
    {
      (value, rest)
    }
  }

  // ----- strings -----

  function HexValue(c: char): int {
    if '0' <= c <= '9' then c as int - '0' as int
    else if 'a' <= c <= 'f' then c as int - 'a' as int + 10
    else if 'A' <= c <= 'F' then c as int - 'A' as int + 10
    else -1
  }

  /** Four hexadecimal digits. */
  function ReadHex4(t: string): (r: Read<nat>)
    ensures r.Done? ==> |r.rest| < |t| && r.value < 0x1_0000
  {
    if |t| < 4 then Failed
    else
      var d0, d1, d2, d3 := HexValue(t[0]), HexValue(t[1]), HexValue(t[2]), HexValue(t[3]);
      if d0 < 0 || d1 < 0 || d2 < 0 || d3 < 0 then Failed
      else Done(((d0 * 0x10 + d1) * 0x10 + d2) * 0x10 + d3, t[4..])
  }

  /** The rest of a `\u` escape: a scalar value, or a surrogate pair. */
  function ReadUnicode(t: string): (r: Read<char>)
    ensures r.Done? ==> |r.rest| < |t|
  {
    var (high, rest) :- ReadHex4(t);
    if !(0xD800 <= high < 0xE000) then Done(high as char, rest)
    else if high < 0xDC00 && |rest| >= 2 && rest[0] == '\\' && rest[1] == 'u' then
      var (low, rest2) :- ReadHex4(rest[2..]);
      if 0xDC00 <= low < 0xE000 then
        Done((0x1_0000 + (high - 0xD800) * 0x400 + (low - 0xDC00)) as char, rest2)
      else Failed
    else Failed
  }

  /** One character of a string. */
  function ReadChar(t: string): (r: Read<char>)
    ensures r.Done? ==> |r.rest| < |t|
  {
    if t == "" || t[0] as int < 0x20 || t[0] == '"' then Failed
    else if t[0] != '\\' then Done(t[0], t[1..])
    else if |t| < 2 then Failed
    else
      match t[1]
      case '"' => Done('"', t[2..])
      case '\\' => Done('\\', t[2..])
      case '/' => Done('/', t[2..])
      case 'b' => Done('\U{8}', t[2..])
      case 'f' => Done('\U{c}', t[2..])
      case 'n' => Done('\n', t[2..])
      case 'r' => Done('\r', t[2..])
      case 't' => Done('\t', t[2..])
      case 'u' => ReadUnicode(t[2..])
      case _ => Failed
  }

  /** The characters up to the closing quote. */
  function ReadChars(t: string): (r: Read<string>)
    ensures r.Done? ==> |r.rest| < |t|
    decreases |t|
  {
    if t == "" then Failed
    else if t[0] == '"' then Done("", t[1..])
    else
      var (c, rest) :- ReadChar(t);
      var (s, rest2) :- ReadChars(rest);
      Done([c] + s, rest2)
  }

  function ReadString(t: string): (r: Read<string>)
    ensures r.Done? ==> |r.rest| < |t|
  {
    if t == "" || t[0] != '"' then Failed else ReadChars(t[1..])
  }

  // ----- numbers -----

  predicate NumberChar(c: char) {
    '0' <= c <= '9' || c == '-' || c == '+' || c == '.' || c == 'e' || c == 'E'
  }

  predicate NumberStart(c: char) {
    '0' <= c <= '9' || c == '-'
  }

  function NumberLength(t: string): (n: nat)
    ensures n <= |t|
  {
    if t == "" || !NumberChar(t[0]) then 0 else 1 + NumberLength(t[1..])
  }

  // ----- values -----

  function ReadWord(t: string, word: string, v: Json): (r: Read<Json>)
    requires word != ""
    ensures r.Done? ==> |r.rest| < |t|
  {
    if word <= t then Done(v, t[|word|..]) else Failed
  }

  function ReadValue(t: string): (r: Read<Json>)
    ensures r.Done? ==> |r.rest| < |t|
    decreases |t|, 2
  {
    if t == "" then Failed
    else if t[0] == 'n' then ReadWord(t, "null", Null)
    else if t[0] == 't' then ReadWord(t, "true", Bool(true))
    else if t[0] == 'f' then ReadWord(t, "false", Bool(false))
    else if t[0] == '"' then
      var (s, rest) :- ReadString(t);
      Done(Str(s), rest)
    else if t[0] == '[' then
      if |t| >= 2 && t[1] == ']' then Done(Arr([]), t[2..])
      else
        var (items, rest) :- ReadItems(t[1..]);
        Done(Arr(items), rest)
    else if t[0] == '{' then
      if |t| >= 2 && t[1] == '}' then Done(Obj(map[]), t[2..])
      else
        var (members, rest) :- ReadMembers(t[1..]);
        Done(Obj(members), rest)
    else if NumberStart(t[0]) then Done(Number(t[..NumberLength(t)]), t[NumberLength(t)..])
    else Failed
  }

  /** One or more items and the closing bracket. */
  function ReadItems(t: string): (r: Read<seq<Json>>)
    ensures r.Done? ==> |r.rest| < |t|
    decreases |t|, 3
  {
    var (v, rest) :- ReadValue(t);
    if rest == "" then Failed
    else if rest[0] == ']' then Done([v], rest[1..])
    else if rest[0] == ',' then
      var (more, rest2) :- ReadItems(rest[1..]);
      Done([v] + more, rest2)
    else Failed
  }

  /** One or more members and the closing brace; of members with one name the last counts. */
  function ReadMembers(t: string): (r: Read<map<string, Json>>)
    ensures r.Done? ==> |r.rest| < |t|
    decreases |t|, 3
  {
    var (k, rest) :- ReadString(t);
    if rest == "" || rest[0] != ':' then Failed
    else
      var (v, rest2) :- ReadValue(rest[1..]);
      if rest2 == "" then Failed
      else if rest2[0] == '}' then Done(map[k := v], rest2[1..])
      else if rest2[0] == ',' then
        var (more, rest3) :- ReadMembers(rest2[1..]);
        Done(map[k := v] + more, rest3)
      else Failed
  }

  // ----- the reader undoes the printer: strings -----

  lemma HexDigitReads(d: nat)
    requires d < 0x10
    ensures HexValue(HexDigit(d)) == d
  {
  }

  lemma Hex4Reads(n: nat, rest: string)
    requires n < 0x1_0000
    ensures ReadHex4(Hex4(n) + rest) == Done(n, rest)
  {
    hide HexValue, HexDigit, Quotients;
    var (q1, q2, q3) := Quotients(n);
    HexDigitReads(q3);
    HexDigitReads(q2 % 0x10);
    HexDigitReads(q1 % 0x10);
    HexDigitReads(n % 0x10);
    assert (Hex4(n) + rest)[4..] == rest;
  }

  lemma UnicodeReads(c: char, rest: string)
    ensures ReadUnicode(UnicodeEscape(c) + rest) == Done(c, rest)
  {
    hide Hex4, ReadHex4;
    if c as int <= 0xffff {
      Hex4Reads(c as int, rest);
    } else {
      var pair := Surrogates(c as int);
      var tail := Hex4(pair.1) + rest;
      Hex4Reads(pair.0, "\\u" + tail);
      Hex4Reads(pair.1, rest);
      assert ("\\u" + tail)[2..] == tail;
      assert UnicodeEscape(c) + rest == Hex4(pair.0) + ("\\u" + tail);
    }
  }

  lemma ShortReads(c: char, rest: string)
    requires ShortEscape(c) != ' '
    ensures ReadChar(['\\', ShortEscape(c)] + rest) == Done(c, rest)
  {
    assert (['\\', ShortEscape(c)] + rest)[2..] == rest;
  }

  lemma PlainReads(c: char, rest: string)
    requires 0x20 <= c as int && ShortEscape(c) == ' '
    ensures ReadChar([c] + rest) == Done(c, rest)
  {
    assert ([c] + rest)[1..] == rest;
  }

  lemma EscapedUnicodeReads(tail: string)
    ensures ReadChar("\\u" + tail) == ReadUnicode(tail)
  {
    hide ReadUnicode;
    assert ("\\u" + tail)[2..] == tail;
  }

  lemma CharReads(c: char, rest: string)
    ensures ReadChar(EscapeChar(c) + rest) == Done(c, rest)
    ensures EscapeChar(c) != "" && EscapeChar(c)[0] != '"'
  {
    hide ReadChar, ReadUnicode, UnicodeEscape;
    if ShortEscape(c) != ' ' {
      ShortReads(c, rest);
    } else if 0x20 <= c as int <= 0x7e {
      PlainReads(c, rest);
    } else {
      UnicodeReads(c, rest);
      EscapedUnicodeReads(UnicodeEscape(c) + rest);
      assert EscapeChar(c) + rest == "\\u" + (UnicodeEscape(c) + rest);
    }
  }

  lemma {:induction false} CharsRead(s: string, rest: string)
    ensures ReadChars(EscapeChars(s) + "\"" + rest) == Done(s, rest)
  {
    hide EscapeChar, ReadChar;
    var t := EscapeChars(s) + "\"" + rest;
    if s == "" {
      assert t[1..] == rest;
    } else {
      var tail := EscapeChars(s[1..]) + "\"" + rest;
      assert t == EscapeChar(s[0]) + tail;
      CharReads(s[0], tail);
      CharsRead(s[1..], rest);
      assert t[0] == EscapeChar(s[0])[0];
      assert [s[0]] + s[1..] == s;
    }
  }

  lemma StringReads(s: string, rest: string)
    ensures ReadString(StringText(s) + rest) == Done(s, rest)
  {
    hide EscapeChars, ReadChars;
    CharsRead(s, rest);
    assert (StringText(s) + rest)[1..] == EscapeChars(s) + "\"" + rest;
  }

  // ----- the reader undoes the printer: numbers -----

  predicate IsNumber(literal: string) {
    literal != "" && NumberStart(literal[0]) && forall c | c in literal :: NumberChar(c)
  }

  /** What may follow a value without lengthening a number. */
  predicate EndsNumber(rest: string) {
    rest == "" || !NumberChar(rest[0])
  }

  lemma {:induction false} NumberLengthIs(literal: string, rest: string)
    requires (forall c | c in literal :: NumberChar(c)) && EndsNumber(rest)
    ensures NumberLength(literal + rest) == |literal|
  {
    if literal == "" {
      assert literal + rest == rest;
    } else {
      assert (literal + rest)[1..] == literal[1..] + rest;
      NumberLengthIs(literal[1..], rest);
    }
  }

  // ----- the reader undoes the printer: trees -----

  /** Trees as a JSON decoder yields them: a number holds a literal. */
  ghost predicate Decoded(v: Json) {
    match v
    case Number(literal) => IsNumber(literal)
    case Arr(items) => forall i | 0 <= i < |items| :: Decoded(items[i])
    case Obj(members) => forall k | k in members :: Decoded(members[k])
    case _ => true
  }

  lemma StringStart(s: string)
    ensures StringText(s) != "" && StringText(s)[0] == '"'
  {
  }

  lemma TextStart(v: Json)
    requires Decoded(v)
    ensures Text(v) != "" && Text(v)[0] != ']'
  {
    hide ItemsFrom, MembersFrom;
  }

  // What ReadValue does on each kind of text.

  lemma ReadsNumber(literal: string, rest: string)
    requires IsNumber(literal) && EndsNumber(rest)
    ensures ReadValue(literal + rest) == Done(Number(literal), rest)
  {
    NumberLengthIs(literal, rest);
    var t := literal + rest;
    assert t[0] == literal[0];
    assert t[..|literal|] == literal && t[|literal|..] == rest;
  }

  lemma ReadsQuoted(s: string, rest: string)
    ensures ReadValue(StringText(s) + rest) == Done(Str(s), rest)
  {
    StringReads(s, rest);
    StringStart(s);
    hide StringText, ReadString;
    assert (StringText(s) + rest)[0] == '"';
  }

  lemma ReadsEmpty(rest: string)
    ensures ReadValue("[]" + rest) == Done(Arr([]), rest)
    ensures ReadValue("{}" + rest) == Done(Obj(map[]), rest)
  {
    assert ("[]" + rest)[2..] == rest && ("{}" + rest)[2..] == rest;
  }

  lemma ReadsWords(rest: string)
    ensures ReadValue("null" + rest) == Done(Null, rest)
    ensures ReadValue("true" + rest) == Done(Bool(true), rest)
    ensures ReadValue("false" + rest) == Done(Bool(false), rest)
  {
    assert ("null" + rest)[4..] == rest && ("true" + rest)[4..] == rest && ("false" + rest)[5..] == rest;
    assert ("null" + rest)[0] == 'n' && ("true" + rest)[0] == 't' && ("false" + rest)[0] == 'f';
  }

  lemma ReadsArray(body: string)
    requires body != "" && body[0] != ']' && ReadItems(body).Done?
    ensures ReadValue("[" + body) == Done(Arr(ReadItems(body).value), ReadItems(body).rest)
  {
    hide ReadItems;
    assert ("[" + body)[1..] == body;
  }

  lemma ReadsObject(body: string)
    requires body != "" && body[0] != '}' && ReadMembers(body).Done?
    ensures ReadValue("{" + body) == Done(Obj(ReadMembers(body).value), ReadMembers(body).rest)
  {
    hide ReadMembers;
    assert ("{" + body)[1..] == body;
  }

  /** Reading the text of a tree gives the tree back and leaves what follows. */
  lemma {:induction false} ValueReads(v: Json, rest: string)
    requires Decoded(v) && EndsNumber(rest)
    ensures ReadValue(Text(v) + rest) == Done(v, rest)
    decreases v, 1, 0
  {
    match v
    case Null => ReadsWords(rest);
    case Bool(truth) => ReadsWords(rest);
    case Number(literal) => ReadsNumber(literal, rest);
    case Str(text) => ReadsQuoted(text, rest);
    case Arr(items) => ArrayReads(v, rest);
    case Obj(members) => ObjectReads(v, rest);
  }

  lemma {:induction false} ArrayReads(v: Json, rest: string)
    requires v.Arr? && Decoded(v)
    ensures ReadValue(Text(v) + rest) == Done(v, rest)
    decreases v, 0, |v.items| + 1
  {
    hide ReadValue, ReadItems, ItemsBody;
    if v.items == [] {
      ReadsEmpty(rest);
      assert Text(v) + rest == "[]" + rest;
    } else {
      var body := ItemsBody(v, 0) + "]" + rest;
      ItemsRead(v, 0, rest);
      BodyStart(v);
      ReadsArray(body);
      assert Text(v) + rest == "[" + body;
      assert v.items[0..] == v.items;
    }
  }

  lemma BodyStart(v: Json)
    requires v.Arr? && v.items != [] && Decoded(v)
    ensures ItemsBody(v, 0) != "" && ItemsBody(v, 0)[0] != ']'
  {
    hide Text, ItemsFrom;
    TextStart(v.items[0]);
  }

  lemma ItemsContinue(t: string, v: Json, tail: string)
    requires ReadValue(t) == Done(v, tail) && tail != ""
    ensures tail[0] == ']' ==> ReadItems(t) == Done([v], tail[1..])
    ensures tail[0] == ',' && ReadItems(tail[1..]).Done? ==>
              ReadItems(t) == Done([v] + ReadItems(tail[1..]).value, ReadItems(tail[1..]).rest)
  {
    hide ReadValue;
  }

  lemma {:induction false} ItemsRead(v: Json, i: nat, rest: string)
    requires v.Arr? && i < |v.items| && Decoded(v)
    ensures ReadItems(ItemsBody(v, i) + "]" + rest) == Done(v.items[i..], rest)
    decreases v, 0, |v.items| - i
  {
    hide ReadValue, ReadItems, Text;
    var tail := ItemsFrom(v, i + 1) + "]" + rest;
    var t := Text(v.items[i]) + tail;
    assert ItemsBody(v, i) + "]" + rest == t;
    hide ItemsBody;
    if i + 1 == |v.items| {
      assert tail == "]" + rest && tail[1..] == rest;
      ValueReads(v.items[i], tail);
      ItemsContinue(t, v.items[i], tail);
      assert [v.items[i]] == v.items[i..];
    } else {
      var more := ItemsBody(v, i + 1) + "]" + rest;
      assert tail == "," + more && tail[1..] == more;
      ValueReads(v.items[i], tail);
      ItemsRead(v, i + 1, rest);
      ItemsContinue(t, v.items[i], tail);
      assert [v.items[i]] + v.items[i + 1..] == v.items[i..];
    }
  }

  lemma {:induction false} ObjectReads(v: Json, rest: string)
    requires v.Obj? && Decoded(v)
    ensures ReadValue(Text(v) + rest) == Done(v, rest)
    decreases v, 0, |SortedKeys(v.members.Keys)| + 1
  {
    hide ReadValue, ReadMembers, MembersBody, SortedKeys;
    var keys := SortedKeys(v.members.Keys);
    assert forall k :: k in keys <==> k in v.members.Keys;
    if keys == [] {
      ReadsEmpty(rest);
      assert Text(v) + rest == "{}" + rest;
      assert v.members == map[];
    } else {
      var body := MembersBody(v, keys, 0) + "}" + rest;
      MembersRead(v, keys, 0, rest);
      MembersStart(v, keys);
      ReadsObject(body);
      assert Text(v) + rest == "{" + body;
      assert keys[0..] == keys;
      assert Restricted(v, keys[0..]) == v.members;
    }
  }

  lemma MembersStart(v: Json, keys: seq<string>)
    requires keys != [] && KeysOf(v, keys)
    ensures MembersBody(v, keys, 0) != "" && MembersBody(v, keys, 0)[0] == '"'
  {
    hide Text, MembersFrom, StringText;
    StringStart(keys[0]);
  }

  /** The members a list of keys names. */
  ghost function Restricted(v: Json, keys: seq<string>): map<string, Json>
    requires KeysOf(v, keys)
  {
    map k | k in keys :: v.members[k]
  }

  lemma RestrictedHead(v: Json, keys: seq<string>)
    requires keys != [] && KeysOf(v, keys) && StrictlySorted(keys)
    ensures Restricted(v, keys) == map[keys[0] := v.members[keys[0]]] + Restricted(v, keys[1..])
  {
    assert keys == [keys[0]] + keys[1..];
    SortedTail(keys, keys[0]);
  }

  lemma MembersContinue(key: string, v: Json, value: string, tail: string)
    requires ReadValue(value + tail) == Done(v, tail) && tail != ""
    ensures tail[0] == '}' ==> ReadMembers(MemberText(key, value) + tail) == Done(map[key := v], tail[1..])
    ensures tail[0] == ',' && ReadMembers(tail[1..]).Done? ==>
              ReadMembers(MemberText(key, value) + tail) ==
              Done(map[key := v] + ReadMembers(tail[1..]).value, ReadMembers(tail[1..]).rest)
  {
    hide ReadValue, ReadString, StringText;
    var after := ":" + (value + tail);
    StringReads(key, after);
    assert after[1..] == value + tail;
    assert MemberText(key, value) + tail == StringText(key) + after;
  }

  lemma {:induction false} MembersRead(v: Json, keys: seq<string>, i: nat, rest: string)
    requires i < |keys| && KeysOf(v, keys) && Decoded(v) && StrictlySorted(keys)
    ensures ReadMembers(MembersBody(v, keys, i) + "}" + rest) == Done(Restricted(v, keys[i..]), rest)
    decreases v, 0, |keys| - i
  {
    hide ReadValue, ReadMembers, MemberText, Text, Restricted;
    var key, value := keys[i], v.members[keys[i]];
    var tail := MembersFrom(v, keys, i + 1) + "}" + rest;
    assert MembersBody(v, keys, i) + "}" + rest == MemberText(key, Text(value)) + tail;
    hide MembersBody;
    RestrictedHead(v, keys[i..]);
    assert keys[i..][1..] == keys[i + 1..];
    if i + 1 == |keys| {
      assert tail == "}" + rest && tail[1..] == rest;
      ValueReads(value, tail);
      MembersContinue(key, value, Text(value), tail);
      NothingRestricted(v, keys[i + 1..]);
      assert map[key := value] + map[] == map[key := value];
    } else {
      var more := MembersBody(v, keys, i + 1) + "}" + rest;
      assert tail == "," + more && tail[1..] == more;
      ValueReads(value, tail);
      MembersRead(v, keys, i + 1, rest);
      MembersContinue(key, value, Text(value), tail);
    }
  }

  lemma NothingRestricted(v: Json, keys: seq<string>)
    requires keys == [] && v.Obj?
    ensures Restricted(v, keys) == map[]
  {
  }

  // ----- one text, one tree -----

  /** Parsing the canonical text gives back the tree. */
  lemma RoundTrip(v: Json)
    requires Decoded(v)
    ensures ReadValue(Text(v)) == Done(v, "")
  {
    hide ReadValue, Text;
    ValueReads(v, "");
    assert Text(v) + "" == Text(v);
  }

  /** Two argument maps have the same text exactly when they are equal apart from the top-level key "cluster". */
  lemma ArgsTextEqualIff(x: map<string, Json>, y: map<string, Json>)
    requires Decoded(Obj(x)) && Decoded(Obj(y))
    ensures ArgsText(x) == ArgsText(y) <==> WithoutCluster(x) == WithoutCluster(y)
  {
    hide Text, ReadValue;
    RoundTrip(Obj(WithoutCluster(x)));
    RoundTrip(Obj(WithoutCluster(y)));
  }
}
