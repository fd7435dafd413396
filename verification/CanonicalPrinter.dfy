/**
 The canonical printer of services/tool-server/approval_token.go. The text of a JSON tree is the meaning of the writer;
 the writer itself appends to a builder in loops and visits an object's members in whatever order the map yields them.
 */
module CanonicalPrinter {
  import opened JsonValues
  import opened Strings

  // ----- characters -----

  function HexDigit(d: nat): char
    requires d < 0x10
  {
    if d < 10 then '0' + d as char else 'a' + (d - 10) as char
  }

  /** The value without its last one, two and three hexadecimal digits. */
  function Quotients(n: nat): (q: (nat, nat, nat))
    requires n < 0x1_0000
    ensures n == q.0 * 0x10 + n % 0x10 && q.0 == q.1 * 0x10 + q.0 % 0x10 && q.1 == q.2 * 0x10 + q.1 % 0x10
    ensures q.2 < 0x10
  {
    (n / 0x10, n / 0x10 / 0x10, n / 0x10 / 0x10 / 0x10)
  }

  /** `%04x` of a 16-bit value. */
  function Hex4(n: nat): string
    requires n < 0x1_0000
  {
    var (q1, q2, q3) := Quotients(n);
    [HexDigit(q3), HexDigit(q2 % 0x10), HexDigit(q1 % 0x10), HexDigit(n % 0x10)]
  }

  /** The high and low surrogate of a scalar value above U+FFFF (section 2.1 of RFC 2781). */
  function Surrogates(n: nat): (pair: (nat, nat))
    requires 0x1_0000 <= n < 0x11_0000
    ensures 0xD800 <= pair.0 < 0xDC00 <= pair.1 < 0xE000
  {
    (0xD800 + (n - 0x1_0000) / 0x400, 0xDC00 + (n - 0x1_0000) % 0x400)
  }

  /** The letter of a two-character escape, or a space when the character has none. */
  function ShortEscape(c: char): char {
    match c
    case '"' => '"'
    case '\\' => '\\'
    case '\U{8}' => 'b'
    case '\U{c}' => 'f'
    case '\n' => 'n'
    case '\r' => 'r'
    case '\t' => 't'
    case _ => ' '
  }

  /** What follows `\u`: four digits, or a surrogate pair above U+FFFF. */
  function UnicodeEscape(c: char): string {
    if c as int > 0xffff then
      var pair := Surrogates(c as int);
      Hex4(pair.0) + "\\u" + Hex4(pair.1)
    else Hex4(c as int)
  }

  function EscapeChar(c: char): string {
    if ShortEscape(c) != ' ' then ['\\', ShortEscape(c)]
    else if 0x20 <= c as int <= 0x7e then [c]
    else "\\u" + UnicodeEscape(c)
  }

  function EscapeChars(s: string): string {
    if s == "" then "" else EscapeChar(s[0]) + EscapeChars(s[1..])
  }

  function StringText(s: string): string {
    "\"" + EscapeChars(s) + "\""
  }

  // ----- trees -----

  /** The canonical text of a tree. */
  ghost function Text(v: Json): string
    decreases v, 1, 0
  {
    match v
    case Null => "null"
    case Bool(truth) => if truth then "true" else "false"
    case Number(literal) => literal
    case Str(text) => StringText(text)
    case Arr(items) => "[" + ItemsFrom(v, 0) + "]"
    case Obj(members) => "{" + MembersFrom(v, SortedKeys(members.Keys), 0) + "}"
  }

  /** What is written for the items from `i` on. */
  ghost function ItemsFrom(v: Json, i: nat): string
    requires v.Arr? && i <= |v.items|
    decreases v, 0, 2 * (|v.items| - i) + 1
  {
    if i == |v.items| then ""
    else if i == 0 then ItemsBody(v, 0)
    else "," + ItemsBody(v, i)
  }

  ghost function ItemsBody(v: Json, i: nat): string
    requires v.Arr? && i < |v.items|
    decreases v, 0, 2 * (|v.items| - i)
  {
    Text(v.items[i]) + ItemsFrom(v, i + 1)
  }

  ghost predicate KeysOf(v: Json, keys: seq<string>) {
    v.Obj? && forall k | k in keys :: k in v.members
  }

  /** What is written for the members whose keys are `keys` from `i` on. */
  ghost function MembersFrom(v: Json, keys: seq<string>, i: nat): string
    requires i <= |keys| && KeysOf(v, keys)
    decreases v, 0, 2 * (|keys| - i) + 1
  {
    if i == |keys| then ""
    else if i == 0 then MembersBody(v, keys, 0)
    else "," + MembersBody(v, keys, i)
  }

  ghost function MembersBody(v: Json, keys: seq<string>, i: nat): string
    requires i < |keys| && KeysOf(v, keys)
    decreases v, 0, 2 * (|keys| - i)
  {
    MemberText(keys[i], Text(v.members[keys[i]])) + MembersFrom(v, keys, i + 1)
  }

  function MemberText(key: string, value: string): string {
    StringText(key) + ":" + value
  }

  /** The arguments an approval is about: all but the routing key. */
  function WithoutCluster(args: map<string, Json>): map<string, Json> {
    args - {"cluster"}
  }

  ghost function ArgsText(args: map<string, Json>): string {
    Text(Obj(WithoutCluster(args)))
  }

  // ----- the writer -----

  class Builder {
    var text: string

    constructor ()
      ensures text == ""
    {
      text := "";
    }

    method Write(s: string)
      modifies this
      ensures text == old(text) + s
    {
      text := text + s;
    }
  }

  lemma {:induction false} EscapeCharsAppend(s: string, c: char)
    ensures EscapeChars(s + [c]) == EscapeChars(s) + EscapeChar(c)
  {
    if s == "" {
      assert s + [c] == [c] && [c][1..] == "";
      assert EscapeChars("") == "";
    } else {
      assert (s + [c])[1..] == s[1..] + [c];
      EscapeCharsAppend(s[1..], c);
    }
  }

  method WriteCanonicalString(b: Builder, s: string)
    modifies b
    ensures b.text == old(b.text) + StringText(s)
  {
    hide EscapeChar;
    b.Write("\"");
    ghost var start := b.text;
    for i := 0 to |s|
      invariant b.text == start + EscapeChars(s[..i])
    {
      EscapeCharsAppend(s[..i], s[i]);
      assert s[..i + 1] == s[..i] + [s[i]];
      b.Write(EscapeChar(s[i]));
    }
    assert s[..|s|] == s;
    b.Write("\"");
  }

  /** The keys of an object in the order a map iteration happens to yield them. */
  method MapKeys(members: map<string, Json>) returns (keys: seq<string>)
    ensures forall k :: k in keys <==> k in members
    ensures forall i, j | 0 <= i < j < |keys| :: keys[i] != keys[j]
  {
    keys := [];
    var rest := members.Keys;
    while rest != {}
      invariant rest <= members.Keys
      invariant forall k :: k in keys <==> k in members.Keys - rest
      invariant forall i, j | 0 <= i < j < |keys| :: keys[i] != keys[j]
      decreases rest
    {
      var k :| k in rest;
      assert k !in keys;
      keys := keys + [k];
      rest := rest - {k};
    }
  }

  method WriteCanonical(b: Builder, v: Json)
    modifies b
    ensures b.text == old(b.text) + Text(v)
    decreases v, 1
  {
    hide ItemsFrom, MembersFrom, StringText;
    match v
    case Null => b.Write("null");
    case Bool(truth) =>
      if truth {
        b.Write("true");
      } else {
        b.Write("false");
      }
    case Number(literal) => b.Write(literal);
    case Str(text) => WriteCanonicalString(b, text);
    case Arr(items) =>
      b.Write("[");
      WriteItems(b, v);
      b.Write("]");
    case Obj(members) =>
      var keys := MapKeys(members);
      SortStringsSorts(keys);
      keys := SortStrings(keys);
      SortedListingUnique(keys, SortedKeys(members.Keys));
      b.Write("{");
      WriteMembers(b, v, keys);
      b.Write("}");
  }

  method WriteItems(b: Builder, v: Json)
    requires v.Arr?
    modifies b
    ensures b.text == old(b.text) + ItemsFrom(v, 0)
    decreases v, 0
  {
    hide Text;
    for i := 0 to |v.items|
      invariant b.text + ItemsFrom(v, i) == old(b.text) + ItemsFrom(v, 0)
    {
      ghost var done := b.text;
      if i > 0 {
        b.Write(",");
      }
      WriteCanonical(b, v.items[i]);
      ItemStep(done, v, i);
    }
  }

  lemma ItemStep(done: string, v: Json, i: nat)
    requires v.Arr? && i < |v.items|
    ensures done + ItemsFrom(v, i) == done + (if i > 0 then "," else "") + Text(v.items[i]) + ItemsFrom(v, i + 1)
  {
    hide Text;
  }

  method WriteMembers(b: Builder, v: Json, keys: seq<string>)
    requires KeysOf(v, keys)
    modifies b
    ensures b.text == old(b.text) + MembersFrom(v, keys, 0)
    decreases v, 0
  {
    hide Text, StringText;
    for i := 0 to |keys|
      invariant b.text + MembersFrom(v, keys, i) == old(b.text) + MembersFrom(v, keys, 0)
    {
      ghost var done := b.text;
      if i > 0 {
        b.Write(",");
      }
      WriteCanonicalString(b, keys[i]);
      b.Write(":");
      WriteCanonical(b, v.members[keys[i]]);
      MemberStep(done, v, keys, i, StringText(keys[i]));
    }
  }

  lemma MemberStep(done: string, v: Json, keys: seq<string>, i: nat, key: string)
    requires i < |keys| && KeysOf(v, keys) && key == StringText(keys[i])
    ensures done + MembersFrom(v, keys, i) ==
            done + (if i > 0 then "," else "") + key + ":" + Text(v.members[keys[i]]) + MembersFrom(v, keys, i + 1)
  {
    hide Text, StringText;
  }

  /** canonicalArgs: whatever order the maps are visited in, the text is `ArgsText`. */
  method CanonicalArgs(args: map<string, Json>) returns (text: string)
    ensures text == ArgsText(args)
  {
    var filtered: map<string, Json> := map[];
    var rest := args.Keys;
    while rest != {}
      invariant rest <= args.Keys
      invariant filtered == map k | k in args && k !in rest && k != "cluster" :: args[k]
      decreases rest
    {
      var k :| k in rest;
      if k != "cluster" {
        filtered := filtered[k := args[k]];
      }
      rest := rest - {k};
    }
    assert filtered == WithoutCluster(args);
    var b := new Builder();
    WriteCanonical(b, Obj(filtered));
    text := b.text;
  }

  // ----- the text is ASCII -----

  predicate Printable(s: string) {
    forall c | c in s :: 0x20 <= c as int <= 0x7e
  }

  lemma HexIsPrintable(n: nat)
    requires n < 0x1_0000
    ensures Printable(Hex4(n))
  {
  }

  lemma EscapedCharIsPrintable(c: char)
    ensures Printable(EscapeChar(c))
  {
    if c as int > 0xffff {
      var pair := Surrogates(c as int);
      HexIsPrintable(pair.0);
      HexIsPrintable(pair.1);
    } else {
      HexIsPrintable(c as int);
    }
  }

  lemma {:induction false} EscapedIsPrintable(s: string)
    ensures Printable(EscapeChars(s))
  {
    if s != "" {
      EscapedIsPrintable(s[1..]);
      EscapedCharIsPrintable(s[0]);
    }
  }

  lemma StringIsPrintable(s: string)
    ensures Printable(StringText(s))
  {
    EscapedIsPrintable(s);
  }

  ghost predicate NumbersPrintable(v: Json) {
    match v
    case Number(literal) => Printable(literal)
    case Arr(items) => forall i | 0 <= i < |items| :: NumbersPrintable(items[i])
    case Obj(members) => forall k | k in members :: NumbersPrintable(members[k])
    case _ => true
  }

  /** Whatever the strings hold, the text is printable ASCII. */
  lemma {:induction false} TextIsPrintable(v: Json)
    requires NumbersPrintable(v)
    ensures Printable(Text(v))
    decreases v, 1, 0
  {
    hide ItemsFrom, MembersFrom, StringText;
    match v
    case Str(text) => StringIsPrintable(text);
    case Arr(items) => ItemsPrintable(v, 0);
    case Obj(members) => MembersPrintable(v, SortedKeys(members.Keys), 0);
    case _ =>
  }

  lemma {:induction false} ItemsPrintable(v: Json, i: nat)
    requires v.Arr? && i <= |v.items| && NumbersPrintable(v)
    ensures Printable(ItemsFrom(v, i))
    decreases v, 0, |v.items| - i
  {
    if i < |v.items| {
      TextIsPrintable(v.items[i]);
      ItemsPrintable(v, i + 1);
    }
  }

  lemma {:induction false} MembersPrintable(v: Json, keys: seq<string>, i: nat)
    requires i <= |keys| && KeysOf(v, keys) && NumbersPrintable(v)
    ensures Printable(MembersFrom(v, keys, i))
    decreases v, 0, |keys| - i
  {
    hide Text, StringText;
    if i < |keys| {
      StringIsPrintable(keys[i]);
      TextIsPrintable(v.members[keys[i]]);
      MembersPrintable(v, keys, i + 1);
    }
  }
}
