/** An honest SCRAM server, written after sections 3, 5.1 and 7 of RFC 5802 apart from the
    client, and the exchange between the two. */
module ScramServer {
  import opened Common
  import opened Int64
  import opened Scram

  /** What the server keeps for a user. */
  datatype Account = Account(salt: Bytes, iterations: int, storedKey: Bytes, serverKey: Bytes)

  /** StoredKey = H(HMAC(SaltedPassword, "Client Key")), ServerKey likewise. */
  function Enrolled(s: Suite, salted: Bytes, salt: Bytes, iterations: nat): Account {
    Account(salt, iterations, s.hash(s.hmac(salted, s.utf8("Client Key"))), s.hmac(salted, s.utf8("Server Key")))
  }

  function ServerFirst(s: Suite, account: Account, nonce: string): string
    requires account.iterations >= 0
  {
    "r=" + nonce + ",s=" + s.encode(account.salt) + ",i=" + Decimal(account.iterations)
  }

  /** saslname: "=2C" stands for a comma, "=3D" for an equals sign. */
  function Unescaped(name: string): Option<string>
    decreases |name|
  {
    if name == "" then Some("")
    else if name[0] == '=' then
      if |name| < 3 || (name[1..3] != "2C" && name[1..3] != "3D") then None
      else
        var rest := Unescaped(name[3..]);
        if rest.None? then None else Some([if name[1..3] == "2C" then ',' else '='] + rest.value)
    else
      var rest := Unescaped(name[1..]);
      if rest.None? then None else Some([name[0]] + rest.value)
  }

  function UserIn(bare: string): Option<string> {
    var n := Attr(Split(bare), 'n');
    if n.None? then None else Unescaped(n.value)
  }

  function BeforeLastComma(msg: string): (r: string) {
    if ',' !in msg then msg
    else if msg[|msg| - 1] == ',' then msg[..|msg| - 1]
    else BeforeLastComma(msg[..|msg| - 1])
  }

  /** The client-first message without the "n,," that says no channel binding. */
  function Bare(first: string): string {
    if |first| >= 3 && first[..3] == "n,," then first[3..] else first
  }

  /** What both sides sign: the three messages without their proof. */
  function Signed(first: string, serverFirst: string, final: string): string {
    Bare(first) + "," + serverFirst + "," + BeforeLastComma(final)
  }

  /** The key the server recovers from the proof, if its hash is the stored key. */
  function Recovered(s: Suite, account: Account, first: string, serverFirst: string, nonce: string, final: string)
    : Option<Bytes>
  {
    var parts := Split(final);
    var c, r, p := Attr(parts, 'c'), Attr(parts, 'r'), Attr(parts, 'p');
    if c != Some(s.encode(s.utf8("n,,"))) || r != Some(nonce) || p.None? || s.decode(p.value).None? then None
    else
      var proof := s.decode(p.value).value;
      var signature := s.hmac(account.storedKey, s.utf8(Signed(first, serverFirst, final)));
      if |proof| != |signature| || s.hash(Xor(proof, signature)) != account.storedKey then None
      else Some(Xor(proof, signature))
  }

  function ServerFinal(s: Suite, account: Account, signed: string): string {
    "v=" + s.encode(s.hmac(account.serverKey, s.utf8(signed)))
  }

  // ---- Agreement ----

  /** The client reads an honest server-first message exactly as it was meant. */
  lemma {:induction false} ServerFirstIsRead(s: Suite, account: Account, clientNonce: string, serverNonce: string)
    requires Sound(s) && 1 <= account.iterations <= MAX64
    requires ',' !in clientNonce && ',' !in serverNonce
    ensures ReadServerFirst(s, clientNonce, ServerFirst(s, account, clientNonce + serverNonce))
         == Some(Challenge(clientNonce + serverNonce, account.salt, account.iterations))
  {
    hide ReadServerFirst, Iterations, Decimal;
    CommaFree(clientNonce, serverNonce);
    ServerFirstReadIff(s, clientNonce, clientNonce + serverNonce, s.encode(account.salt), Decimal(account.iterations));
    IterationsExact(Decimal(account.iterations));
  }

  lemma {:induction false} CutAtLastComma(x: string, y: string)
    requires ',' !in y
    ensures BeforeLastComma(x + "," + y) == x
    decreases |y|
  {
    var msg := x + "," + y;
    assert msg[|x|] == ',';
    if y == "" {
      assert msg[..|msg| - 1] == x;
    } else {
      assert msg[|msg| - 1] == y[|y| - 1] && y[|y| - 1] in y;
      assert msg[..|msg| - 1] == x + "," + y[..|y| - 1];
      CutAtLastComma(x, y[..|y| - 1]);
    }
  }

  /** Both sides sign the same text. */
  lemma {:induction false} SignedIs(s: Suite, user: string, clientNonce: string, serverFirst: string, nonce: string,
                                    proof: Bytes)
    requires Sound(s)
    ensures Signed("n,,n=" + user + ",r=" + clientNonce, serverFirst,
                   FinalWithoutProof(s, nonce) + ",p=" + s.encode(proof))
         == AuthMessage(s, user, clientNonce, serverFirst, nonce)
  {
    hide BeforeLastComma;
    var first := "n,,n=" + user + ",r=" + clientNonce;
    assert first[..3] == "n,," && first[3..] == ClientFirstBare(user, clientNonce);
    CommaFree("p=", s.encode(proof));
    var x, z := FinalWithoutProof(s, nonce), "p=" + s.encode(proof);
    assert x + ",p=" + s.encode(proof) == x + "," + z;
    CutAtLastComma(x, z);
  }

  /** From the proof the server recovers exactly HMAC(SaltedPassword, "Client Key"), and
      accepts. */
  lemma {:induction false} ServerAccepts(s: Suite, salted: Bytes, salt: Bytes, iterations: nat,
                                         user: string, clientNonce: string, serverFirst: string, nonce: string)
    requires Sound(s) && ',' !in nonce
    ensures var auth := AuthMessage(s, user, clientNonce, serverFirst, nonce);
      Recovered(s, Enrolled(s, salted, salt, iterations), "n,,n=" + user + ",r=" + clientNonce, serverFirst, nonce,
                ClientFinal(s, salted, auth, nonce))
      == Some(s.hmac(salted, s.utf8("Client Key")))
  {
    hide Split, Attr, Signed;
    var auth := AuthMessage(s, user, clientNonce, serverFirst, nonce);
    var key := s.hmac(salted, s.utf8("Client Key"));
    var signature := s.hmac(s.hash(key), s.utf8(auth));
    var proof := Proof(s, salted, auth);
    var x, y, z := "c=" + s.encode(s.utf8("n,,")), "r=" + nonce, "p=" + s.encode(proof);
    var msg := ClientFinal(s, salted, auth, nonce);
    assert msg == x + "," + y + "," + z;
    assert x[2..] == s.encode(s.utf8("n,,")) && y[2..] == nonce && z[2..] == s.encode(proof);
    CommaFree("c=", s.encode(s.utf8("n,,")));
    CommaFree("r=", nonce);
    CommaFree("p=", s.encode(proof));
    ThreeAttrs(x, y, z, 'c');
    ThreeAttrs(x, y, z, 'r');
    ThreeAttrs(x, y, z, 'p');
    SignedIs(s, user, clientNonce, serverFirst, nonce, proof);
    XorTwice(key, signature);
  }

  /** A whole exchange between the client and an honest server whose salted password is the
      XOR of the HMAC chain of the same password: both sides accept, and the server holds
      HMAC(SaltedPassword, "Client Key"). */
  method Exchange(s: Suite, user: string, password: string, clientNonce: string, serverNonce: string,
                  salt: Bytes, iterations: nat, salted: Bytes)
    returns (recovered: Option<Bytes>, last: Reply)
    requires Sound(s) && 1 <= iterations <= MAX64
    requires ',' !in clientNonce && ',' !in serverNonce
    requires IsHi(s, s.utf8(password), salt, iterations, salted)
    ensures recovered == Some(s.hmac(salted, s.utf8("Client Key")))
    ensures last == Ok("")
  {
    hide Split, Attr, Hi, IsHi, Recovered, ReadServerFirst, AcceptsFinal, Signed;
    HiIff(s, s.utf8(password), salt, iterations, salted);
    var account := Enrolled(s, salted, salt, iterations);
    var client := new Client(s, user, password, clientNonce);
    var first := client.Step("");
    var nonce := clientNonce + serverNonce;
    CommaFree(clientNonce, serverNonce);
    var serverFirst := ServerFirst(s, account, nonce);
    ServerFirstIsRead(s, account, clientNonce, serverNonce);
    var second := client.Step(serverFirst);
    ServerAccepts(s, salted, salt, iterations, user, clientNonce, serverFirst, nonce);
    recovered := Recovered(s, account, first.message, serverFirst, nonce, second.message);
    SignedIs(s, user, clientNonce, serverFirst, nonce, Proof(s, salted, client.authMessage));
    var signed := Signed(first.message, serverFirst, second.message);
    ClientAcceptsOnly(s, salted, client.authMessage, s.hmac(account.serverKey, s.utf8(signed)));
    last := client.Step(ServerFinal(s, account, signed));
  }

  // ---- User names ----

  lemma {:induction false} UnescapedLength(name: string)
    ensures var r := Unescaped(name);
      && (r.Some? ==> |r.value| <= |name|)
      && (r.Some? && |r.value| == |name| ==> '=' !in name)
      && ('=' !in name ==> r == Some(name))
    decreases |name|
  {
    if name != "" {
      assert name == [name[0]] + name[1..];
      if name[0] == '=' {
        if |name| >= 3 { UnescapedLength(name[3..]); }
      } else {
        UnescapedLength(name[1..]);
      }
    }
  }

  lemma {:induction false} PartsAreShorter(s: string, i: nat)
    requires i < |Split(s)|
    ensures |Split(s)[i]| <= |s| && (',' in s ==> |Split(s)[i]| < |s|)
    decreases |s|
  {
    var c := FirstComma(s);
    if c < |s| && i > 0 { PartsAreShorter(s[c + 1..], i - 1); }
  }

  lemma {:induction false} AttrIsPart(parts: seq<string>, c: char)
    requires Attr(parts, c).Some?
    ensures exists i | 0 <= i < |parts| :: |parts[i]| == |Attr(parts, c).value| + 2
  {
    var last := parts[|parts| - 1];
    if !(IsAttr(last) && last[0] == c) {
      AttrIsPart(parts[..|parts| - 1], c);
      var i :| 0 <= i < |parts| - 1 && |parts[..|parts| - 1][i]| == |Attr(parts, c).value| + 2;
      assert parts[i] == parts[..|parts| - 1][i];
    } else {
      assert |parts[|parts| - 1]| == |Attr(parts, c).value| + 2;
    }
  }

  /** User names are sent unescaped, so the server reads back the name it was meant to
      read exactly when it contains neither a comma nor an equals sign. */
  lemma {:induction false} UserIsReadIffPlain(user: string, nonce: string)
    requires ',' !in nonce
    ensures UserIn(Bare("n,,n=" + user + ",r=" + nonce)) == Some(user) <==> ',' !in user && '=' !in user
  {
    hide Split, Attr, Unescaped;
    var x, y := "n=" + user, "r=" + nonce;
    var first := "n,,n=" + user + ",r=" + nonce;
    assert first[..3] == "n,," && first[3..] == x + "," + y;
    CommaFree("r=", nonce);
    SplitConcat(x, y);
    SplitWhole(y);
    AttrLast(Split(x), y, 'n');
    if ',' !in user {
      CommaFree("n=", user);
      SplitWhole(x);
      AttrOne(x, 'n');
      assert x[2..] == user;
      UnescapedLength(user);
    } else {
      assert ',' in x by {
        var i :| 0 <= i < |user| && user[i] == ',';
        assert x[i + 2] == ',';
      }
      var n := Attr(Split(x), 'n');
      if n.Some? {
        AttrIsPart(Split(x), 'n');
        var i :| 0 <= i < |Split(x)| && |Split(x)[i]| == |n.value| + 2;
        PartsAreShorter(x, i);
        UnescapedLength(n.value);
      }
    }
  }
}
