/**
 Approval tokens: what services/tool-server/approval_token.go accepts, against what ai-service signs
 (services/ai-service/app/services/approval_token.py). Hash, MAC and base64url are parameters.
 */
module ApprovalToken {
  import opened Options
  import opened JsonValues
  import opened Strings
  import opened CanonicalPrinter
  import opened CanonicalReader

  // ----- decimal numbers -----

  function DigitsValue(s: string): nat
    requires AllDigits(s)
  {
    if s == "" then 0
    else
      var last := s[|s| - 1];
      assert IsDigit(last);
      DigitsValue(s[..|s| - 1]) * 10 + (last as int - '0' as int)
  }

  predicate InInt64(n: int) {
    -0x8000_0000_0000_0000 <= n < 0x8000_0000_0000_0000
  }

  /** strconv.ParseInt(s, 10, 64). */
  function ParseInt(s: string): Option<int> {
    if s != "" && s[0] == '-' then ParseDigits(s[1..], -1)
    else if s != "" && s[0] == '+' then ParseDigits(s[1..], 1)
    else ParseDigits(s, 1)
  }

  function ParseDigits(digits: string, sign: int): Option<int> {
    if digits == "" || !AllDigits(digits) then None
    else if InInt64(sign * DigitsValue(digits)) then Some(sign * DigitsValue(digits))
    else None
  }

  function IntText(n: int): string {
    if n < 0 then "-" + NatText(-n) else NatText(n)
  }

  lemma {:induction false} NatTextValue(n: nat)
    ensures DigitsValue(NatText(n)) == n
  {
    var s := NatText(n);
    if n < 10 {
      assert s[..|s| - 1] == "";
    } else {
      assert s[..|s| - 1] == NatText(n / 10);
      NatTextValue(n / 10);
    }
  }

  /** Parsing the decimal text of a 64-bit integer gives it back. */
  lemma ParseIntReads(n: int)
    requires InInt64(n)
    ensures ParseInt(IntText(n)) == Some(n)
  {
    hide NatText, DigitsValue, AllDigits;
    if n < 0 {
      NatTextValue(-n);
      assert IntText(n)[1..] == NatText(-n);
    } else {
      NatTextValue(n);
      FirstDigit(NatText(n));
    }
  }

  lemma FirstDigit(s: string)
    requires s != "" && AllDigits(s)
    ensures s[0] != '-' && s[0] != '+'
  {
    assert IsDigit(s[0]);
  }

  lemma NoBarInInt(n: int)
    ensures '|' !in IntText(n)
  {
    hide NatText;
    var digits := NatText(if n < 0 then -n else n);
    assert forall i | 0 <= i < |digits| :: IsDigit(digits[i]);
  }

  // ----- the token -----

  /** The hexadecimal SHA-256 and HMAC and the base64url encoding. */
  datatype Crypto = Crypto(
    digest: string -> string,
    mac: (string, string) -> string,
    encode: string -> string,
    decode: string -> Option<string>)

  /** No collisions, a decoding that undoes the encoding, and the alphabets of hexadecimal and base64url. */
  ghost predicate Ideal(c: Crypto) {
    && (forall x, y :: c.digest(x) == c.digest(y) ==> x == y)
    && (forall x :: '|' !in c.digest(x))
    && (forall k, x, l, y :: c.mac(k, x) == c.mac(l, y) ==> k == l && x == y)
    && (forall k, x :: c.mac(k, x) != "" && '.' !in c.mac(k, x))
    && (forall x :: c.decode(c.encode(x)) == Some(x) && '.' !in c.encode(x))
    && (forall x :: x != "" ==> c.encode(x) != "")
  }

  /** What an approval is for. */
  datatype Call = Call(approvalID: string, userID: string, cluster: string, tool: string, args: map<string, Json>)

  ghost predicate SameCall(x: Call, y: Call) {
    && x.approvalID == y.approvalID && x.userID == y.userID && x.cluster == y.cluster && x.tool == y.tool
    && WithoutCluster(x.args) == WithoutCluster(y.args)
  }

  ghost function Fields(c: Crypto, call: Call, exp: int): seq<string> {
    [call.approvalID, call.userID, call.cluster, call.tool, c.digest(ArgsText(call.args)), IntText(exp)]
  }

  /** ai-service's sign: the token for a call, good through `exp` (a Unix second). */
  ghost function Sign(c: Crypto, secret: string, call: Call, exp: int): string {
    var payload := c.encode(Join(Fields(c, call, exp), '|'));
    payload + "." + c.mac(secret, payload)
  }

  datatype Verdict =
    | Accepted
    | NotConfigured
    | Malformed
    | BadSignature
    | MalformedPayload
    | Expired
    | ApprovalMismatch
    | UserMismatch
    | ClusterMismatch
    | ToolMismatch
    | ArgumentsDiffer

  /** strings.LastIndexByte. */
  function LastIndex(s: string, c: char): (i: int)
    ensures -1 <= i < |s|
  {
    if s == "" then -1 else if s[|s| - 1] == c then |s| - 1 else LastIndex(s[..|s| - 1], c)
  }

  /** The checks on a payload whose signature holds. */
  ghost function VerifyFields(c: Crypto, fields: seq<string>, call: Call, now: int): Verdict {
    if |fields| != 6 then MalformedPayload
    else
      var exp := ParseInt(fields[5]);
      if exp.None? || now > exp.value then Expired
      else if fields[0] != call.approvalID then ApprovalMismatch
      else if fields[1] != call.userID then UserMismatch
      else if fields[2] != call.cluster then ClusterMismatch
      else if fields[3] != call.tool then ToolMismatch
      else if fields[4] != c.digest(ArgsText(call.args)) then ArgumentsDiffer
      else Accepted
  }

  /** verifyApprovalToken. */
  ghost function Verify(c: Crypto, secret: string, token: string, call: Call, now: int): Verdict {
    if secret == "" then NotConfigured
    else
      var dot := LastIndex(token, '.');
      if dot <= 0 || dot == |token| - 1 then Malformed
      else
        var payload, sig := token[..dot], token[dot + 1..];
        if c.mac(secret, payload) != sig then BadSignature
        else
          match c.decode(payload)
          case None => MalformedPayload
          case Some(raw) => VerifyFields(c, Split(raw, '|'), call, now)
  }

  // ----- what is accepted -----

  lemma {:induction false} LastIndexOf(head: string, tail: string, c: char)
    requires c !in tail
    ensures LastIndex(head + [c] + tail, c) == |head|
  {
    var s := head + [c] + tail;
    if tail == "" {
      assert s[|s| - 1] == c;
    } else {
      assert s[..|s| - 1] == head + [c] + tail[..|tail| - 1];
      assert s[|s| - 1] == tail[|tail| - 1];
      LastIndexOf(head, tail[..|tail| - 1], c);
    }
  }

  predicate NoBar(call: Call) {
    '|' !in call.approvalID && '|' !in call.userID && '|' !in call.cluster && '|' !in call.tool
  }

  /** A token reaches the field checks exactly when the secret is the signing one. */
  lemma SignatureChecks(c: Crypto, key: string, secret: string, signed: Call, exp: int, call: Call, now: int)
    requires Ideal(c) && secret != ""
    ensures Verify(c, secret, Sign(c, key, signed, exp), call, now) ==
            if secret == key then VerifyFields(c, Split(Join(Fields(c, signed, exp), '|'), '|'), call, now)
            else BadSignature
  {
    hide VerifyFields, Split, ArgsText, IntText;
    var raw := Join(Fields(c, signed, exp), '|');
    assert raw != "";
    var payload := c.encode(raw);
    var sig := c.mac(key, payload);
    var token := payload + "." + sig;
    LastIndexOf(payload, sig, '.');
    assert token[..|payload|] == payload && token[|payload| + 1..] == sig;
  }

  lemma FieldsSplitBack(c: Crypto, call: Call, exp: int)
    requires Ideal(c)
    ensures NoBar(call) ==> Split(Join(Fields(c, call, exp), '|'), '|') == Fields(c, call, exp)
    ensures !NoBar(call) ==> |Split(Join(Fields(c, call, exp), '|'), '|')| > 6
  {
    hide Split, Join, ArgsText, IntText;
    var fields := Fields(c, call, exp);
    NoBarInInt(exp);
    SplitJoin(fields, '|');
    if !NoBar(call) {
      assert fields[0] in fields && fields[1] in fields && fields[2] in fields && fields[3] in fields;
      assert exists f | f in fields :: '|' in f;
    }
  }

  /**
   A signed token is accepted for exactly the call it was signed for (arguments compared without the routing key), under
   the same secret, through its expiry. A field holding '|' is the one case in which the signed call itself is refused.
   */
  lemma SignedAcceptedIff(c: Crypto, key: string, secret: string, signed: Call, exp: int, call: Call, now: int)
    requires Ideal(c)
    requires Decoded(Obj(signed.args)) && Decoded(Obj(call.args))
    requires InInt64(exp)
    ensures Verify(c, secret, Sign(c, key, signed, exp), call, now) == Accepted <==>
            secret != "" && secret == key && SameCall(signed, call) && now <= exp && NoBar(signed)
  {
    hide Decoded, Split, Join, ArgsText, IntText, ParseInt;
    if secret != "" {
      SignatureChecks(c, key, secret, signed, exp, call, now);
      hide Verify, Sign;
      FieldsSplitBack(c, signed, exp);
      ParseIntReads(exp);
      ArgsTextEqualIff(signed.args, call.args);
    }
  }

  /** Whoever made it, a token is accepted for one call only. */
  lemma TokenBindsOneCall(c: Crypto, secret: string, token: string, x: Call, y: Call, now: int, later: int)
    requires Ideal(c) && Decoded(Obj(x.args)) && Decoded(Obj(y.args))
    requires Verify(c, secret, token, x, now) == Accepted && Verify(c, secret, token, y, later) == Accepted
    ensures SameCall(x, y)
  {
    hide Decoded;
    ArgsTextEqualIff(x.args, y.args);
  }

  /**
   A bar in the cluster id a chat names, which nothing before the token check keeps out: the signed call itself is
   refused, unexpired and under the right secret.
   */
  lemma BarRefused(c: Crypto, now: int)
    requires Ideal(c) && InInt64(now)
    ensures var call := Call("7f3a", "u1", "prod|eu", "k8s_scale", map[]);
            Verify(c, "s3cret", Sign(c, "s3cret", call, now), call, now) == MalformedPayload
  {
    var call := Call("7f3a", "u1", "prod|eu", "k8s_scale", map[]);
    SignatureChecks(c, "s3cret", "s3cret", call, now, call, now);
    var fields := Fields(c, call, now);
    SplitJoin(fields, '|');
    assert fields[2] in fields && fields[2][4] == '|';
    assert exists f | f in fields :: '|' in f;
  }
}
