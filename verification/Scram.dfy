/** The inline SCRAM client after sections 2.2, 3, 5.1 and 7 of RFC 5802. HMAC, the
    hash, base64 and the UTF-8 encoding are parameters. */
module Scram {
  import opened Common
  import opened Int64

  type Bytes = seq<bv8>

  datatype Suite = Suite(
    size: nat,
    hmac: (Bytes, Bytes) -> Bytes,
    hash: Bytes -> Bytes,
    utf8: string -> Bytes,
    encode: Bytes -> string,
    decode: string -> Option<Bytes>)

  /** Digests have one size; base64 decodes what it encodes and uses no comma. */
  ghost predicate Sound(s: Suite) {
    && (forall k, m :: |s.hmac(k, m)| == s.size)
    && (forall m :: |s.hash(m)| == s.size)
    && (forall b :: s.decode(s.encode(b)) == Some(b))
    && (forall b :: ',' !in s.encode(b))
  }

  function Widened(b: Bytes): string {
    seq(|b|, i requires 0 <= i < |b| => (256 + b[i] as int) as char)
  }

  function Narrowed(s: string): Option<Bytes> {
    if forall i | 0 <= i < |s| :: 256 <= s[i] as int < 512
    then Some(seq(|s|, i requires 0 <= i < |s| && 256 <= s[i] as int < 512 => (s[i] as int - 256) as bv8))
    else None
  }

  /** The assumptions on the primitives can be met for digests of any size. */
  lemma {:induction false} SoundSuiteExists(size: nat)
    ensures exists s :: Sound(s) && s.size == size
  {
    var digest: Bytes := seq(size, _ => 0);
    var s := Suite(size, (k, m) => digest, m => digest, x => [], Widened, Narrowed);
    forall b ensures s.decode(s.encode(b)) == Some(b) && ',' !in s.encode(b) {
      assert Narrowed(Widened(b)).value == b;
    }
    assert Sound(s);
  }

  // ---- XOR and Hi ----

  function Xor(a: Bytes, b: Bytes): (r: Bytes)
    requires |a| <= |b|
    ensures |r| == |a|
  {
    seq(|a|, i requires 0 <= i < |a| => a[i] ^ b[i])
  }

  lemma {:induction false} XorTwice(a: Bytes, b: Bytes)
    requires |a| == |b|
    ensures Xor(Xor(a, b), b) == a
  {
    forall i | 0 <= i < |a| ensures Xor(Xor(a, b), b)[i] == a[i] {
      ByteXorTwice(a[i], b[i]);
    }
  }

  lemma {:induction false} ByteXorTwice(x: bv8, y: bv8)
    ensures (x ^ y) ^ y == x
  {}

  const BLOCK_ONE: Bytes := [0, 0, 0, 1]

  /** U1 = HMAC(password, salt ++ INT(1)), Ui = HMAC(password, Ui-1). */
  function Chain(s: Suite, password: Bytes, salt: Bytes, i: nat): Bytes
    requires i >= 1
  {
    if i == 1 then s.hmac(password, salt + BLOCK_ONE) else s.hmac(password, Chain(s, password, salt, i - 1))
  }

  ghost function Hi(s: Suite, password: Bytes, salt: Bytes, i: nat): (r: Bytes)
    requires Sound(s) && i >= 1
    ensures |r| == s.size
  {
    if i == 1 then Chain(s, password, salt, 1)
    else Xor(Hi(s, password, salt, i - 1), Chain(s, password, salt, i))
  }

  /** The digests U1, U2, ... of section 2.2 of RFC 5802. */
  predicate IsChain(s: Suite, password: Bytes, salt: Bytes, u: seq<Bytes>) {
    && |u| >= 1 && u[0] == s.hmac(password, salt + [0, 0, 0, 1])
    && forall j | 0 < j < |u| :: u[j] == s.hmac(password, u[j - 1])
  }

  /** Byte k of the XOR of all digests. */
  function XorAt(u: seq<Bytes>, k: nat): bv8
    requires |u| >= 1 && forall j | 0 <= j < |u| :: k < |u[j]|
  {
    if |u| == 1 then u[0][k] else XorAt(u[..|u| - 1], k) ^ u[|u| - 1][k]
  }

  /** r is the XOR of i digests of the chain. */
  ghost predicate IsHi(s: Suite, password: Bytes, salt: Bytes, i: nat, r: Bytes) {
    exists u: seq<Bytes> ::
      && IsChain(s, password, salt, u) && |u| == i && (forall j | 0 <= j < i :: |u[j]| == |r|)
      && forall k | 0 <= k < |r| :: r[k] == XorAt(u, k)
  }

  lemma {:induction false} ChainIs(s: Suite, password: Bytes, salt: Bytes, u: seq<Bytes>, j: nat)
    requires IsChain(s, password, salt, u) && j < |u|
    ensures u[j] == Chain(s, password, salt, j + 1)
  {
    if j > 0 { ChainIs(s, password, salt, u, j - 1); }
  }

  lemma {:induction false} FoldIs(s: Suite, password: Bytes, salt: Bytes, u: seq<Bytes>, k: nat)
    requires Sound(s) && IsChain(s, password, salt, u) && k < s.size
    ensures (forall j | 0 <= j < |u| :: |u[j]| == s.size)
    ensures Hi(s, password, salt, |u|)[k] == XorAt(u, k)
    decreases |u|
  {
    ChainIs(s, password, salt, u, |u| - 1);
    if |u| > 1 { FoldIs(s, password, salt, u[..|u| - 1], k); }
  }

  lemma {:induction false} ChainExists(s: Suite, password: Bytes, salt: Bytes, i: nat) returns (u: seq<Bytes>)
    requires i >= 1
    ensures IsChain(s, password, salt, u) && |u| == i
  {
    if i == 1 {
      u := [s.hmac(password, salt + [0, 0, 0, 1])];
    } else {
      var front := ChainExists(s, password, salt, i - 1);
      u := front + [s.hmac(password, front[i - 2])];
    }
  }

  /** Hi is the XOR of the chain and nothing else is. */
  lemma {:induction false} HiIff(s: Suite, password: Bytes, salt: Bytes, i: nat, r: Bytes)
    requires Sound(s) && i >= 1
    ensures IsHi(s, password, salt, i, r) <==> r == Hi(s, password, salt, i)
  {
    hide XorAt, Hi;
    if IsHi(s, password, salt, i, r) {
      var u: seq<Bytes> :| IsChain(s, password, salt, u) && |u| == i && (forall j | 0 <= j < i :: |u[j]| == |r|)
        && forall k | 0 <= k < |r| :: r[k] == XorAt(u, k);
      forall k | 0 <= k < |r| ensures r[k] == Hi(s, password, salt, i)[k] { FoldIs(s, password, salt, u, k); }
    }
    if r == Hi(s, password, salt, i) {
      var u := ChainExists(s, password, salt, i);
      forall j | 0 <= j < |u| ensures |u[j]| == s.size {
        assert u[j] == s.hmac(password, if j == 0 then salt + [0, 0, 0, 1] else u[j - 1]);
      }
      forall k | 0 <= k < |r| ensures r[k] == XorAt(u, k) { FoldIs(s, password, salt, u, k); }
    }
  }

  /** Hi as it runs: the digests of the chain folded into one buffer by XOR. */
  method ScramHi(s: Suite, password: Bytes, salt: Bytes, iterations: nat) returns (r: Bytes)
    requires Sound(s) && iterations >= 1
    ensures r == Hi(s, password, salt, iterations) && IsHi(s, password, salt, iterations, r)
  {
    HiIff(s, password, salt, iterations, Hi(s, password, salt, iterations));
    hide IsHi;
    var u := s.hmac(password, salt + BLOCK_ONE);
    var result := new bv8[|u|](i requires 0 <= i < |u| => u[i]);
    assert result[..] == u;
    for i := 2 to iterations + 1
      invariant u == Chain(s, password, salt, i - 1)
      invariant result.Length == s.size && result[..] == Hi(s, password, salt, i - 1)
    {
      u := s.hmac(password, u);
      XorInto(result, u);
    }
    r := result[..];
  }

  method XorInto(buffer: array<bv8>, u: Bytes)
    requires buffer.Length <= |u|
    modifies buffer
    ensures buffer[..] == Xor(old(buffer[..]), u)
  {
    for j := 0 to buffer.Length
      invariant forall k | 0 <= k < j :: buffer[k] == old(buffer[k]) ^ u[k]
      invariant forall k | j <= k < buffer.Length :: buffer[k] == old(buffer[k])
    {
      buffer[j] := buffer[j] ^ u[j];
    }
  }

  // ---- Attribute lists ----

  function FirstComma(s: string): (i: nat)
    ensures i <= |s|
    ensures i < |s| ==> s[i] == ','
    ensures forall j | 0 <= j < i :: s[j] != ','
  {
    if s == "" || s[0] == ',' then 0 else 1 + FirstComma(s[1..])
  }

  function Split(s: string): seq<string>
    decreases |s|
  {
    var i := FirstComma(s);
    if i == |s| then [s] else [s[..i]] + Split(s[i + 1..])
  }

  lemma {:induction false} SplitWhole(s: string)
    requires ',' !in s
    ensures Split(s) == [s]
  {
    hide FirstComma;
  }

  lemma {:induction false} SplitHead(x: string, y: string)
    requires ',' !in x
    ensures Split(x + "," + y) == [x] + Split(y)
  {
    hide FirstComma;
    var s := x + "," + y;
    assert s[|x|] == ',';
    assert forall j | 0 <= j < |x| :: s[j] == x[j];
    assert FirstComma(s) == |x|;
    assert s[..|x|] == x && s[|x| + 1..] == y;
  }

  lemma {:induction false} SplitConcat(x: string, y: string)
    ensures Split(x + "," + y) == Split(x) + Split(y)
    decreases |x|
  {
    hide Split;
    if ',' !in x {
      SplitWhole(x);
      SplitHead(x, y);
    } else {
      var i := FirstComma(x);
      var a, b := x[..i], x[i + 1..];
      assert ',' !in a && x == a + "," + b;
      SplitHead(a, b);
      SplitHead(a, b + "," + y);
      assert x + "," + y == a + "," + (b + "," + y);
      SplitConcat(b, y);
      assert [a] + (Split(b) + Split(y)) == ([a] + Split(b)) + Split(y);
    }
  }

  predicate IsAttr(part: string) {
    |part| >= 2 && part[1] == '='
  }

  /** The value of the last attribute called c. */
  function Attr(parts: seq<string>, c: char): Option<string> {
    if parts == [] then None
    else
      var last := parts[|parts| - 1];
      if IsAttr(last) && last[0] == c then Some(last[2..]) else Attr(parts[..|parts| - 1], c)
  }

  function Get(attrs: map<char, string>, c: char): Option<string> {
    if c in attrs then Some(attrs[c]) else None
  }

  method ParseAttrs(msg: string) returns (attrs: map<char, string>)
    ensures forall c: char :: Get(attrs, c) == Attr(Split(msg), c)
  {
    var parts := Split(msg);
    attrs := map[];
    for i := 0 to |parts|
      invariant forall c: char :: Get(attrs, c) == Attr(parts[..i], c)
    {
      assert parts[..i + 1][..i] == parts[..i];
      if IsAttr(parts[i]) { attrs := attrs[parts[i][0] := parts[i][2..]]; }
    }
    assert parts[..|parts|] == parts;
  }

  lemma {:induction false} AttrLast(parts: seq<string>, part: string, c: char)
    ensures Attr(parts + [part], c) == if IsAttr(part) && part[0] == c then Some(part[2..]) else Attr(parts, c)
  {
    assert (parts + [part])[..|parts|] == parts;
  }

  lemma {:induction false} AttrOne(part: string, c: char)
    ensures Attr([part], c) == if IsAttr(part) && part[0] == c then Some(part[2..]) else None
  {
    AttrLast([], part, c);
    assert [] + [part] == [part];
  }

  /** A message of comma-free attributes, read back. */
  lemma {:induction false} TwoAttrs(x: string, y: string, c: char)
    requires ',' !in x && ',' !in y
    ensures Attr(Split(x + "," + y), c) ==
      if IsAttr(y) && y[0] == c then Some(y[2..]) else if IsAttr(x) && x[0] == c then Some(x[2..]) else None
  {
    SplitHead(x, y);
    SplitWhole(y);
    AttrLast([x], y, c);
    AttrOne(x, c);
  }

  lemma {:induction false} ThreeAttrs(x: string, y: string, z: string, c: char)
    requires ',' !in x && ',' !in y && ',' !in z
    ensures Attr(Split(x + "," + y + "," + z), c) ==
      if IsAttr(z) && z[0] == c then Some(z[2..])
      else if IsAttr(y) && y[0] == c then Some(y[2..])
      else if IsAttr(x) && x[0] == c then Some(x[2..]) else None
  {
    SplitConcat(x + "," + y, z);
    SplitWhole(z);
    AttrLast(Split(x + "," + y), z, c);
    TwoAttrs(x, y, c);
  }

  // ---- Iteration counts ----

  predicate IsDigit(c: char) {
    '0' <= c <= '9'
  }

  predicate AllDigits(s: string) {
    forall i | 0 <= i < |s| :: IsDigit(s[i])
  }

  function DigitValue(c: char): (d: int)
    requires IsDigit(c)
    ensures 0 <= d <= 9
  {
    c as int - '0' as int
  }

  function DecimalValue(s: string): (n: nat)
    requires AllDigits(s)
  {
    if s == "" then 0 else 10 * DecimalValue(s[..|s| - 1]) + DigitValue(s[|s| - 1])
  }

  /** The parser's result: the decimal value wrapped to 64 bits, if positive. */
  function Iterations(s: string): Option<int> {
    if AllDigits(s) && Wrap(DecimalValue(s)) > 0 then Some(Wrap(DecimalValue(s))) else None
  }

  method ParseIter(s: string) returns (r: Option<int>)
    ensures r == Iterations(s)
  {
    var n := 0;
    for i := 0 to |s|
      invariant AllDigits(s[..i]) && n == Wrap(DecimalValue(s[..i]))
    {
      if !IsDigit(s[i]) {
        return None;
      }
      assert s[..i + 1][..i] == s[..i];
      WrapStep(10, DecimalValue(s[..i]), DigitValue(s[i]));
      n := Wrap(10 * n + DigitValue(s[i]));
    }
    assert s[..|s|] == s;
    r := if n <= 0 then None else Some(n);
  }

  function Decimal(n: nat): (s: string)
    ensures AllDigits(s) && DecimalValue(s) == n && ',' !in s
  {
    if n < 10 then
      var s := [('0' as int + n) as char];
      assert s[..0] == "" && DecimalValue(s[..0]) == 0;
      s
    else
      var s := Decimal(n / 10) + [('0' as int + n % 10) as char];
      assert s[..|s| - 1] == Decimal(n / 10);
      s
  }

  /** A digit string is read as its value exactly when the value is positive and fits
      in a signed 64-bit integer. */
  lemma {:induction false} IterationsExact(s: string)
    ensures Iterations(s).Some? ==> forall c | c in s :: '0' <= c <= '9'
    ensures AllDigits(s) ==> (Iterations(s) == Some(DecimalValue(s)) <==> 1 <= DecimalValue(s) <= MAX64)
  {
    if AllDigits(s) {
      var n := DecimalValue(s);
      if 1 <= n <= MAX64 { WrapUnique(n, n); }
    }
  }

  // ---- The client ----

  const GS2: string := "n,,"

  function ClientFirstBare(user: string, nonce: string): string {
    "n=" + user + ",r=" + nonce
  }

  function FinalWithoutProof(s: Suite, nonce: string): string {
    "c=" + s.encode(s.utf8(GS2)) + ",r=" + nonce
  }

  function AuthMessage(s: Suite, user: string, clientNonce: string, serverFirst: string, nonce: string): string {
    ClientFirstBare(user, clientNonce) + "," + serverFirst + "," + FinalWithoutProof(s, nonce)
  }

  datatype Challenge = Challenge(nonce: string, salt: Bytes, iterations: int)

  /** What the client accepts as a server-first message. */
  function ReadServerFirst(s: Suite, clientNonce: string, msg: string): Option<Challenge> {
    var parts := Split(msg);
    var r, b64, it := Attr(parts, 'r'), Attr(parts, 's'), Attr(parts, 'i');
    if r.None? || !(clientNonce <= r.value) || b64.None? || s.decode(b64.value).None? || it.None?
       || Iterations(it.value).None?
    then None
    else Some(Challenge(r.value, s.decode(b64.value).value, Iterations(it.value).value))
  }

  ghost function SaltedPassword(s: Suite, password: string, c: Challenge): Bytes
    requires Sound(s) && c.iterations >= 1
  {
    Hi(s, s.utf8(password), c.salt, c.iterations)
  }

  function ClientKey(s: Suite, salted: Bytes): Bytes {
    s.hmac(salted, s.utf8("Client Key"))
  }

  function ServerSignature(s: Suite, salted: Bytes, auth: string): Bytes {
    s.hmac(s.hmac(salted, s.utf8("Server Key")), s.utf8(auth))
  }

  ghost function Proof(s: Suite, salted: Bytes, auth: string): Bytes
    requires Sound(s)
  {
    Xor(ClientKey(s, salted), s.hmac(s.hash(ClientKey(s, salted)), s.utf8(auth)))
  }

  ghost function ClientFinal(s: Suite, salted: Bytes, auth: string, nonce: string): string
    requires Sound(s)
  {
    FinalWithoutProof(s, nonce) + ",p=" + s.encode(Proof(s, salted, auth))
  }

  /** The client accepts a server-final message exactly when its signature is right. */
  predicate AcceptsFinal(s: Suite, salted: Bytes, auth: string, msg: string) {
    var v := Attr(Split(msg), 'v');
    v.Some? && s.decode(v.value) == Some(ServerSignature(s, salted, auth))
  }

  datatype Reply = Ok(message: string) | Failed

  class Client {
    const suite: Suite
    const user: string
    const pass: string
    const clientNonce: string
    var saltedPass: Bytes
    var authMessage: string
    var step: int

    constructor (suite: Suite, user: string, pass: string, nonce: string)
      ensures this.suite == suite && this.user == user && this.pass == pass && clientNonce == nonce
      ensures step == 0
    {
      this.suite, this.user, this.pass, this.clientNonce := suite, user, pass, nonce;
      saltedPass, authMessage, step := [], "", 0;
    }

    method Step(challenge: string) returns (r: Reply)
      requires Sound(suite)
      modifies this
      ensures step == old(step) + 1
      ensures step == 1 ==> r == Ok("n,,n=" + user + ",r=" + clientNonce)
      ensures step == 2 ==>
        match ReadServerFirst(suite, clientNonce, challenge)
        case None => r == Failed
        case Some(c) =>
          && c.iterations >= 1
          && saltedPass == SaltedPassword(suite, pass, c)
          && authMessage == AuthMessage(suite, user, clientNonce, challenge, c.nonce)
          && r == Ok(ClientFinal(suite, saltedPass, authMessage, c.nonce))
      ensures step == 3 ==>
        r == if AcceptsFinal(suite, old(saltedPass), old(authMessage), challenge) then Ok("") else Failed
      ensures step == 3 ==> saltedPass == old(saltedPass) && authMessage == old(authMessage)
      ensures !(1 <= step <= 3) ==> r == Failed
    {
      step := step + 1;
      if step == 1 {
        return Ok("n,,n=" + user + ",r=" + clientNonce);
      } else if step == 2 {
        r := Answer(challenge);
      } else if step == 3 {
        var attrs := ParseAttrs(challenge);
        assert Get(attrs, 'v') == Attr(Split(challenge), 'v');
        if 'v' !in attrs { return Failed; }
        var received := suite.decode(attrs['v']);
        if received.None? { return Failed; }
        var expected := ServerSignature(suite, saltedPass, authMessage);
        return if expected == received.value then Ok("") else Failed;
      } else {
        return Failed;
      }
    }

    method Answer(challenge: string) returns (r: Reply)
      requires Sound(suite)
      modifies this`saltedPass, this`authMessage
      ensures match ReadServerFirst(suite, clientNonce, challenge)
        case None => r == Failed
        case Some(c) =>
          && c.iterations >= 1
          && saltedPass == SaltedPassword(suite, pass, c)
          && authMessage == AuthMessage(suite, user, clientNonce, challenge, c.nonce)
          && r == Ok(ClientFinal(suite, saltedPass, authMessage, c.nonce))
    {
      var attrs := ParseAttrs(challenge);
      assert Get(attrs, 'r') == Attr(Split(challenge), 'r');
      assert Get(attrs, 's') == Attr(Split(challenge), 's');
      assert Get(attrs, 'i') == Attr(Split(challenge), 'i');
      if 'r' !in attrs { return Failed; }
      var nonce := attrs['r'];
      if !(clientNonce <= nonce) { return Failed; }
      if 's' !in attrs { return Failed; }
      var salt := suite.decode(attrs['s']);
      if salt.None? { return Failed; }
      if 'i' !in attrs { return Failed; }
      var iterations := ParseIter(attrs['i']);
      if iterations.None? { return Failed; }
      saltedPass := ScramHi(suite, suite.utf8(pass), salt.value, iterations.value);
      var clientKey := suite.hmac(saltedPass, suite.utf8("Client Key"));
      var storedKey := suite.hash(clientKey);
      var withoutProof := "c=" + suite.encode(suite.utf8(GS2)) + ",r=" + nonce;
      authMessage := "n=" + user + ",r=" + clientNonce + "," + challenge + "," + withoutProof;
      var proof := Xor(clientKey, suite.hmac(storedKey, suite.utf8(authMessage)));
      return Ok(withoutProof + ",p=" + suite.encode(proof));
    }
  }

  // ---- What the client accepts ----

  lemma {:induction false} CommaFree(x: string, y: string)
    requires ',' !in x && ',' !in y
    ensures ',' !in x + y
  {}

  /** A server-first message is read if and only if its nonce begins with the client's, its
      salt decodes and its iteration count parses; and then as it was written. */
  lemma {:induction false} ServerFirstReadIff(s: Suite, clientNonce: string, nonce: string, b64: string, count: string)
    requires ',' !in nonce && ',' !in b64 && ',' !in count
    ensures ReadServerFirst(s, clientNonce, "r=" + nonce + ",s=" + b64 + ",i=" + count) ==
      if clientNonce <= nonce && s.decode(b64).Some? && Iterations(count).Some?
      then Some(Challenge(nonce, s.decode(b64).value, Iterations(count).value)) else None
  {
    hide Split, Attr, Iterations;
    var x, y, z := "r=" + nonce, "s=" + b64, "i=" + count;
    assert "r=" + nonce + ",s=" + b64 + ",i=" + count == x + "," + y + "," + z;
    assert x[2..] == nonce && y[2..] == b64 && z[2..] == count;
    CommaFree("r=", nonce);
    CommaFree("s=", b64);
    CommaFree("i=", count);
    ThreeAttrs(x, y, z, 'r');
    ThreeAttrs(x, y, z, 's');
    ThreeAttrs(x, y, z, 'i');
  }

  /** A message without one of the three attributes is refused. */
  lemma {:induction false} IncompleteIsRefused(s: Suite, clientNonce: string, msg: string)
    requires Attr(Split(msg), 'r').None? || Attr(Split(msg), 's').None? || Attr(Split(msg), 'i').None?
    ensures ReadServerFirst(s, clientNonce, msg).None?
  {
    hide Split, Attr, Iterations;
  }

  /** The client accepts a server-final message if and only if the signature in it is
      HMAC(HMAC(SaltedPassword, "Server Key"), AuthMessage). */
  lemma {:induction false} ClientAcceptsOnly(s: Suite, salted: Bytes, auth: string, signature: Bytes)
    requires Sound(s)
    ensures AcceptsFinal(s, salted, auth, "v=" + s.encode(signature)) <==>
      signature == s.hmac(s.hmac(salted, s.utf8("Server Key")), s.utf8(auth))
  {
    hide Split, Attr;
    var part := "v=" + s.encode(signature);
    CommaFree("v=", s.encode(signature));
    SplitWhole(part);
    AttrOne(part, 'v');
    assert part[2..] == s.encode(signature);
  }
}
