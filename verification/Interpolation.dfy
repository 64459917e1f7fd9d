/** The single-pass template interpolator: `$(...)` placeholders resolved once
    from the original text, into an actual and a redacted output. */
module Interpolation {
  import opened Common

  // ---- Templates: the parse/print specification ----

  /** A template is text, a token, text, a token, ..., and a tail. */
  datatype Template = End(tail: string) | More(text: string, token: string, rest: Template)

  predicate OpenAt(s: string, j: nat) {
    j + 1 < |s| && s[j] == '$' && s[j + 1] == '('
  }

  predicate NoOpen(s: string) {
    forall j: nat | j < |s| :: !OpenAt(s, j)
  }

  /** Index of the first "$(", or |s|. */
  function FirstOpen(s: string): (a: nat)
    ensures a <= |s|
    ensures a < |s| ==> OpenAt(s, a)
    ensures forall j: nat | j < a :: !OpenAt(s, j)
  {
    if |s| < 2 then |s|
    else if OpenAt(s, 0) then 0
    else
      var a := FirstOpen(s[1..]);
      assert forall j: nat | 1 <= j :: OpenAt(s, j) == OpenAt(s[1..], j - 1);
      1 + a
  }

  /** Index of the first ")", or |s|. */
  function FirstClose(s: string): (c: nat)
    ensures c <= |s|
    ensures c < |s| ==> s[c] == ')'
    ensures forall j | 0 <= j < c :: s[j] != ')'
  {
    if s == "" then 0
    else if s[0] == ')' then 0
    else 1 + FirstClose(s[1..])
  }

  function Parse(s: string): Template
    decreases |s|
  {
    var a := FirstOpen(s);
    var c := a + FirstClose(s[a..]);
    if c == |s| then End(s)
    else More(s[..a], s[a + 2..c], Parse(s[c + 1..]))
  }

  function Placeholder(token: string): string {
    "$(" + token + ")"
  }

  function Print(t: Template): string {
    match t
    case End(tail) => tail
    case More(text, token, rest) => text + Placeholder(token) + Print(rest)
  }

  /** No "$(" with a ")" somewhere after it. */
  predicate NoToken(s: string) {
    forall j: nat, c: nat | j < c < |s| :: !(OpenAt(s, j) && s[c] == ')')
  }

  /** Exactly the templates parsing produces. */
  predicate Canonical(t: Template) {
    match t
    case End(tail) => NoToken(tail)
    case More(text, token, rest) => NoOpen(text) && ')' !in token && Canonical(rest)
  }

  lemma {:induction false} ParseEnd(s: string)
    requires NoToken(s)
    ensures Parse(s) == End(s)
  {
    hide FirstOpen, FirstClose;
    var a := FirstOpen(s);
    assert forall c | 0 <= c < |s| - a :: s[a..][c] == s[a + c];
  }

  lemma {:induction false} OpensAt(text: string, tail: string)
    requires NoOpen(text)
    ensures FirstOpen(text + "$(" + tail) == |text|
  {
    hide FirstOpen;
    var s := text + "$(" + tail;
    var a := |text|;
    assert s[a] == '$' && s[a + 1] == '(';
    assert OpenAt(s, a);
    forall j: nat | j < a ensures !OpenAt(s, j) {
      if j + 1 < a { assert !OpenAt(text, j) && s[j] == text[j] && s[j + 1] == text[j + 1]; }
    }
  }

  lemma {:induction false} ClosesAt(token: string, rest: string)
    requires ')' !in token
    ensures FirstClose("$(" + token + ")" + rest) == 2 + |token|
  {
    hide FirstClose;
    var s := "$(" + token + ")" + rest;
    assert s[2 + |token|] == ')';
    forall j | 0 <= j < 2 + |token| ensures s[j] != ')' {
      if j >= 2 { assert s[j] == token[j - 2]; }
    }
  }

  lemma {:induction false} CloseAfterOpen(s: string)
    requires FirstOpen(s) < |s|
    ensures FirstClose(s[FirstOpen(s)..]) >= 2
  {
    hide FirstOpen, FirstClose;
    var u := s[FirstOpen(s)..];
    assert u[0] == '$' && u[1] == '(';
  }

  lemma {:induction false} ParseAt(s: string, a: nat, c: nat)
    requires a == FirstOpen(s) && c == a + FirstClose(s[a..]) && a + 2 <= c < |s|
    ensures Parse(s) == More(s[..a], s[a + 2..c], Parse(s[c + 1..]))
  {
    hide FirstOpen, FirstClose, OpenAt;
    var u := s[c + 1..];
    assert FirstOpen(s) + FirstClose(s[FirstOpen(s)..]) == c;
    assert Parse(s) == More(s[..a], s[a + 2..c], Parse(u));
  }

  lemma {:induction false} Cut(x: string, y: string, z: string)
    ensures var s := x + y + z;
      s[..|x|] == x && s[|x|..] == y + z && s[|x|..|x| + |y|] == y && s[|x| + |y|..] == z
  {}

  lemma {:induction false} ParseMore(text: string, token: string, rest: string)
    requires NoOpen(text) && ')' !in token
    ensures Parse(text + Placeholder(token) + rest) == More(text, token, Parse(rest))
  {
    hide FirstOpen, FirstClose, NoOpen, Parse;
    var s := text + Placeholder(token) + rest;
    var p := Placeholder(token);
    Cut(text, p, rest);
    assert s[|text|..] == p + rest;
    assert s == text + "$(" + (token + ")" + rest) by { assert p + rest == "$(" + (token + ")" + rest); }
    OpensAt(text, token + ")" + rest);
    ClosesAt(token, rest);
    var a := |text|;
    var c := a + 2 + |token|;
    ParseAt(s, a, c);
    assert s[a + 2..c] == s[a..a + |p|][2..2 + |token|] == p[2..2 + |token|] == token;
    assert s[c + 1..] == rest;
  }

  lemma {:induction false} BeforeFirstOpen(s: string)
    ensures NoOpen(s[..FirstOpen(s)])
  {
    hide FirstOpen;
    var text := s[..FirstOpen(s)];
    forall j: nat | j < |text| ensures !OpenAt(text, j) {
      assert !OpenAt(s, j);
    }
  }

  /** A string is either free of tokens or splits at its first one. */
  lemma {:induction false} Split(s: string) returns (text: string, token: string, rest: string)
    requires !NoToken(s)
    ensures s == text + Placeholder(token) + rest && NoOpen(text) && ')' !in token
  {
    hide FirstOpen, FirstClose, NoOpen;
    var a := FirstOpen(s);
    var c := a + FirstClose(s[a..]);
    assert c < |s| by {
      var j: nat, k: nat :| j < k < |s| && OpenAt(s, j) && s[k] == ')';
      assert a <= j;
      assert s[a..][k - a] == ')';
    }
    assert s[c] == s[a..][c - a];
    CloseAfterOpen(s);
    text, token, rest := s[..a], s[a + 2..c], s[c + 1..];
    BeforeFirstOpen(s);
    forall k | 0 <= k < |token| ensures token[k] != ')' {
      assert token[k] == s[a..][k + 2];
    }
  }

  lemma {:induction false} PrintParse(s: string)
    ensures Print(Parse(s)) == s && Canonical(Parse(s))
    decreases |s|
  {
    hide Parse, NoToken, NoOpen;
    if NoToken(s) {
      ParseEnd(s);
    } else {
      var text, token, rest := Split(s);
      ParseMore(text, token, rest);
      PrintParse(rest);
    }
  }

  lemma {:induction false} ParsePrint(t: Template)
    requires Canonical(t)
    ensures Parse(Print(t)) == t
  {
    hide Parse, NoToken, NoOpen;
    match t {
      case End(tail) => ParseEnd(tail);
      case More(text, token, rest) =>
        ParseMore(text, token, Print(rest));
        ParsePrint(rest);
    }
  }

  /** Segmentation is a bijection between strings and canonical templates: printing
      the segments gives back the template and no other segmentation does. */
  lemma {:induction false} SegmentationUnique(s: string, t: Template)
    requires Canonical(t)
    ensures Print(t) == s <==> t == Parse(s)
  {
    PrintParse(s);
    ParsePrint(t);
  }

  // ---- Concatenation ----

  function Tail(t: Template): string {
    match t
    case End(tail) => tail
    case More(_, _, rest) => Tail(rest)
  }

  function PrependText(x: string, t: Template): Template {
    match t
    case End(tail) => End(x + tail)
    case More(text, token, rest) => More(x + text, token, rest)
  }

  function Join(t: Template, u: Template): Template {
    match t
    case End(tail) => PrependText(tail, u)
    case More(text, token, rest) => More(text, token, Join(rest, u))
  }

  function FirstChar(s: string): string {
    if s == "" then "" else [s[0]]
  }

  /** A token that the left part leaves open, or opens with its last character, and
      the right part closes. */
  predicate Straddles(tail: string, right: string) {
    !NoOpen(tail + FirstChar(right)) && ')' in right
  }

  lemma {:induction false} StraddleBreaks(e: string, t: string)
    requires Straddles(e, t)
    ensures Parse(e + t).More? && |Parse(e + t).text| < |e|
  {
    var s := e + t;
    var j: nat :| j < |e + FirstChar(t)| && OpenAt(e + FirstChar(t), j);
    assert OpenAt(s, j) && j < |e|;
    var a := FirstOpen(s);
    assert a <= j;
    var k :| 0 <= k < |t| && t[k] == ')';
    assert s[a..][|e| + k - a] == ')';
  }

  lemma {:induction false} OpenTailJoins(e: string, t: string)
    requires NoToken(e) && ')' !in t
    ensures NoToken(e + t) && NoToken(t)
  {
    forall j: nat, c: nat | j < c < |e + t| ensures !(OpenAt(e + t, j) && (e + t)[c] == ')') {
      if c < |e| {
        assert j + 1 <= c;
        assert OpenAt(e + t, j) ==> OpenAt(e, j);
      } else {
        assert (e + t)[c] == t[c - |e|];
      }
    }
  }

  lemma {:induction false} ClosedTailNoOpen(e: string, t: string, x: string, y: string)
    requires NoOpen(e + FirstChar(t)) && t == x + y && NoOpen(x) && (x == "" ==> y == "" || y[0] == '$')
    ensures NoOpen(e + x)
  {
    forall j: nat | j < |e + x| ensures !OpenAt(e + x, j) {
      if j >= |e| {
        assert !OpenAt(x, j - |e|);
      } else {
        assert !OpenAt(e + FirstChar(t), j);
        assert x != "" ==> x[0] == t[0];
      }
    }
  }

  lemma {:induction false} ClosedTailNoToken(e: string, t: string)
    requires NoOpen(e + FirstChar(t)) && NoToken(t)
    ensures NoToken(e + t)
  {
    var s := e + t;
    forall j: nat, c: nat | j < c < |s| ensures !(OpenAt(s, j) && s[c] == ')') {
      if j < |e| {
        assert !OpenAt(e + FirstChar(t), j);
      } else {
        assert s[c] == t[c - |e|] && OpenAt(s, j) == OpenAt(t, j - |e|);
      }
    }
  }

  lemma {:induction false} TailJoin(e: string, t: string)
    requires NoToken(e)
    ensures Parse(e + t) == PrependText(e, Parse(t)) <==> !Straddles(e, t)
  {
    hide Parse, NoToken, NoOpen;
    if Straddles(e, t) {
      StraddleBreaks(e, t);
    } else if ')' !in t {
      OpenTailJoins(e, t);
      ParseEnd(e + t);
      ParseEnd(t);
    } else if NoToken(t) {
      ClosedTailNoToken(e, t);
      ParseEnd(e + t);
      ParseEnd(t);
    } else {
      var text, token, rest := Split(t);
      assert t == text + (Placeholder(token) + rest);
      ClosedTailNoOpen(e, t, text, Placeholder(token) + rest);
      ParseMore(text, token, rest);
      ParseMore(e + text, token, rest);
      assert e + t == (e + text) + Placeholder(token) + rest;
    }
  }

  /** Parsing distributes over concatenation exactly when no token straddles the
      boundary. */
  lemma {:induction false} ParseConcat(s: string, t: string)
    ensures Parse(s + t) == Join(Parse(s), Parse(t)) <==> !Straddles(Tail(Parse(s)), t)
    decreases |s|
  {
    hide Parse, NoToken, NoOpen, Straddles;
    if NoToken(s) {
      ParseEnd(s);
      TailJoin(s, t);
    } else {
      var text, token, rest := Split(s);
      ParseMore(text, token, rest);
      ParseMore(text, token, rest + t);
      assert s + t == text + Placeholder(token) + (rest + t);
      ParseConcat(rest, t);
    }
  }

  // ---- Tokens ----

  datatype Scalar = Topic | Partition | Offset | Key | ScheduledTime

  datatype Ref =
    | StepResult(step: string, key: string)
    | Param(name: string)
    | Body
    | BodyField(path: string)
    | Header(name: string)
    | TriggerScalar(field: Scalar)
    | Secret(name: string, key: string)
    | Unknown(token: string)

  function ScalarName(f: Scalar): string {
    match f
    case Topic => "trigger.topic"
    case Partition => "trigger.partition"
    case Offset => "trigger.offset"
    case Key => "trigger.key"
    case ScheduledTime => "trigger.scheduledTime"
  }

  predicate HasPrefix(s: string, prefix: string) {
    |prefix| <= |s| && s[..|prefix|] == prefix
  }

  /** The parts around the first occurrence of sep. */
  function SplitFirst(s: string, sep: string): (r: Option<(string, string)>)
    ensures r.Some? ==> s == r.value.0 + sep + r.value.1
  {
    if HasPrefix(s, sep) then Some(("", s[|sep|..]))
    else if s == "" then None
    else
      var r := SplitFirst(s[1..], sep);
      if r.None? then None
      else
        var (a, b) := r.value;
        assert [s[0]] + (a + sep + b) == ([s[0]] + a) + sep + b;
        Some(([s[0]] + a, b))
  }

  function ParseToken(t: string): Ref {
    if HasPrefix(t, "steps.") then
      match SplitFirst(t[6..], ".results.")
      case Some((step, key)) => StepResult(step, key)
      case None => Unknown(t)
    else if HasPrefix(t, "params.") then Param(t[7..])
    else if t == "trigger.body" then Body
    else if HasPrefix(t, "trigger.body.") then BodyField(t[13..])
    else if HasPrefix(t, "trigger.headers.") then Header(t[16..])
    else if t == ScalarName(Topic) then TriggerScalar(Topic)
    else if t == ScalarName(Partition) then TriggerScalar(Partition)
    else if t == ScalarName(Offset) then TriggerScalar(Offset)
    else if t == ScalarName(Key) then TriggerScalar(Key)
    else if t == ScalarName(ScheduledTime) then TriggerScalar(ScheduledTime)
    else if HasPrefix(t, "secrets.") then
      match SplitFirst(t[8..], ".")
      case Some((name, key)) => Secret(name, key)
      case None => Unknown(t)
    else Unknown(t)
  }

  function PrintRef(r: Ref): string {
    match r
    case StepResult(step, key) => "steps." + step + ".results." + key
    case Param(name) => "params." + name
    case Body => "trigger.body"
    case BodyField(path) => "trigger.body." + path
    case Header(name) => "trigger.headers." + name
    case TriggerScalar(f) => ScalarName(f)
    case Secret(name, key) => "secrets." + name + "." + key
    case Unknown(t) => t
  }

  lemma {:induction false} PrefixSplits(s: string, prefix: string)
    requires HasPrefix(s, prefix)
    ensures |prefix| <= |s| && s == prefix + s[|prefix|..]
  {
    assert s == s[..|prefix|] + s[|prefix|..];
  }

  lemma {:induction false} SplitRejoins(t: string, prefix: string, sep: string)
    requires HasPrefix(t, prefix) && SplitFirst(t[|prefix|..], sep).Some?
    ensures var (x, y) := SplitFirst(t[|prefix|..], sep).value; t == prefix + x + sep + y
  {
    hide HasPrefix, SplitFirst;
    PrefixSplits(t, prefix);
    var (x, y) := SplitFirst(t[|prefix|..], sep).value;
    assert prefix + (x + sep + y) == prefix + x + sep + y;
  }

  /** Token syntax loses nothing: a reference prints back to its token. */
  lemma {:induction false} PrintParseToken(t: string)
    ensures PrintRef(ParseToken(t)) == t
  {
    hide HasPrefix, SplitFirst, ScalarName;
    if HasPrefix(t, "steps.") {
      PrefixSplits(t, "steps.");
      if SplitFirst(t[6..], ".results.").Some? { SplitRejoins(t, "steps.", ".results."); }
    } else if HasPrefix(t, "params.") {
      PrefixSplits(t, "params.");
    } else if t == "trigger.body" {
    } else if HasPrefix(t, "trigger.body.") {
      PrefixSplits(t, "trigger.body.");
    } else if HasPrefix(t, "trigger.headers.") {
      PrefixSplits(t, "trigger.headers.");
    } else if HasPrefix(t, "secrets.") {
      PrefixSplits(t, "secrets.");
      if SplitFirst(t[8..], ".").Some? { SplitRejoins(t, "secrets.", "."); }
    }
  }

  // ---- Resolution ----

  datatype StepEntry = StepEntry(name: string, results: map<string, string>)

  datatype HeaderEntry = HeaderEntry(name: string, value: string)

  datatype Trigger = Trigger(
    body: string,
    contentType: string,
    headers: seq<HeaderEntry>,
    scalars: Scalar -> string)

  /** Step results and headers in the iteration order of the Go maps, the parsed trigger
      body as a lookup by dot-path, and the lower-casing of header names. */
  datatype Context = Context(
    steps: seq<StepEntry>,
    params: map<string, string>,
    trigger: Option<Trigger>,
    parseBody: (string, string) -> Option<string -> string>,
    toLower: string -> string)

  datatype Fetch = Got(value: string) | Denied(error: string)

  type SecretSource = (string, string) -> Fetch

  datatype Resolution = Unmatched | Plain(value: string) | Hidden(value: string) | Refused(error: string)

  /** Hyphens in step names are written as underscores in tokens. */
  function Normalized(name: string): string {
    seq(|name|, i requires 0 <= i < |name| => if name[i] == '-' then '_' else name[i])
  }

  /** The first step of that normalized name decides. */
  function StepLookup(steps: seq<StepEntry>, name: string, key: string): Option<string> {
    if steps == [] then None
    else if Normalized(steps[0].name) != name then StepLookup(steps[1..], name, key)
    else if key in steps[0].results then Some(steps[0].results[key])
    else None
  }

  function ParsedBody(ctx: Context): Option<string -> string> {
    if ctx.trigger.None? then None else ctx.parseBody(ctx.trigger.value.body, ctx.trigger.value.contentType)
  }

  /** Headers by lower-cased name; of names that collide the last one stays. */
  function Lowered(headers: seq<HeaderEntry>, toLower: string -> string): map<string, string> {
    if headers == [] then map[]
    else
      var last := headers[|headers| - 1];
      Lowered(headers[..|headers| - 1], toLower)[toLower(last.name) := last.value]
  }

  function HeadersOf(ctx: Context): seq<HeaderEntry> {
    if ctx.trigger.None? then [] else ctx.trigger.value.headers
  }

  method LowerHeaders(headers: seq<HeaderEntry>, toLower: string -> string) returns (lower: map<string, string>)
    ensures lower == Lowered(headers, toLower)
  {
    lower := map[];
    for i := 0 to |headers|
      invariant lower == Lowered(headers[..i], toLower)
    {
      assert headers[..i + 1][..i] == headers[..i];
      lower := lower[toLower(headers[i].name) := headers[i].value];
    }
    assert headers[..|headers|] == headers;
  }

  function ValueOf(lower: map<string, string>, name: string): string {
    if name in lower then lower[name] else ""
  }

  function AsPlain(v: Option<string>): Resolution {
    if v.Some? then Plain(v.value) else Unmatched
  }

  function ResolveRef(ctx: Context, lower: map<string, string>, body: Option<string -> string>,
                      secrets: Option<SecretSource>, r: Ref): Resolution
  {
    match r
    case StepResult(step, key) => AsPlain(StepLookup(ctx.steps, step, key))
    case Param(name) => if name in ctx.params then Plain(ctx.params[name]) else Unmatched
    case Body => if ctx.trigger.None? then Unmatched else Plain(ctx.trigger.value.body)
    case BodyField(path) =>
      if ctx.trigger.None? || ctx.trigger.value.body == "" || body.None? then Unmatched else Plain(body.value(path))
    case Header(name) =>
      if ctx.trigger.None? then Unmatched else Plain(ValueOf(lower, ctx.toLower(name)))
    case TriggerScalar(f) => if ctx.trigger.None? then Unmatched else Plain(ctx.trigger.value.scalars(f))
    case Secret(name, key) =>
      if secrets.None? then Unmatched
      else
        (match secrets.value(name, key)
         case Got(v) => Hidden(v)
         case Denied(e) => Refused(e))
    case Unknown(_) => Unmatched
  }

  function Resolve(ctx: Context, secrets: Option<SecretSource>, token: string): Resolution {
    ResolveRef(ctx, Lowered(HeadersOf(ctx), ctx.toLower), ParsedBody(ctx), secrets, ParseToken(token))
  }

  // ---- Rendering ----

  const REDACTED := "[REDACTED]"

  datatype Output = Ok(actual: string, display: string) | Err(error: string)

  function Prefixed(actual: string, display: string, o: Output): Output {
    match o
    case Ok(a, d) => Ok(actual + a, display + d)
    case Err(e) => Err(e)
  }

  function Concat(o: Output, p: Output): Output {
    match o
    case Ok(a, d) => Prefixed(a, d, p)
    case Err(e) => Err(e)
  }

  function Shown(token: string, r: Resolution, display: bool): string {
    match r
    case Unmatched => Placeholder(token)
    case Plain(v) => v
    case Hidden(v) => if display then REDACTED else v
    case Refused(_) => ""
  }

  function Render(t: Template, ctx: Context, secrets: Option<SecretSource>): Output {
    match t
    case End(tail) => Ok(tail, tail)
    case More(text, token, rest) =>
      var r := Resolve(ctx, secrets, token);
      if r.Refused? then Err(r.error)
      else Prefixed(text + Shown(token, r, false), text + Shown(token, r, true), Render(rest, ctx, secrets))
  }

  lemma {:induction false} PrefixedTwice(a: string, d: string, b: string, e: string, o: Output)
    ensures Prefixed(a, d, Prefixed(b, e, o)) == Prefixed(a + b, d + e, o)
  {
    if o.Ok? {
      assert a + (b + o.actual) == (a + b) + o.actual;
      assert d + (e + o.display) == (d + e) + o.display;
    }
  }

  lemma {:induction false} ParseEndAt(u: string)
    requires FirstOpen(u) + FirstClose(u[FirstOpen(u)..]) == |u|
    ensures Parse(u) == End(u)
  {}

  lemma {:induction false} RenderAt(u: string, start: nat, close: nat, ctx: Context, secrets: Option<SecretSource>)
    requires start == FirstOpen(u) && close == start + FirstClose(u[start..]) && start + 2 <= close < |u|
    ensures var text, token := u[..start], u[start + 2..close];
      var r := Resolve(ctx, secrets, token);
      Render(Parse(u), ctx, secrets) ==
        if r.Refused? then Err(r.error)
        else Prefixed(text + Shown(token, r, false), text + Shown(token, r, true),
                      Render(Parse(u[close + 1..]), ctx, secrets))
  {
    hide Parse, FirstOpen, FirstClose, Resolve, Shown, Prefixed;
    ParseAt(u, start, close);
  }

  lemma {:induction false} PrefixedNothing(o: Output)
    ensures Prefixed("", "", o) == o
  {}

  /** The scan: one index, two buffers, substituted values never looked at again.
      The trigger body is parsed at most once, when a token first needs it. */
  method Interpolate(s: string, ctx: Context, secrets: Option<SecretSource>) returns (r: Output)
    ensures r == Render(Parse(s), ctx, secrets)
  {
    hide Parse, FirstOpen, FirstClose, Resolve, ResolveRef, ParseToken, HasPrefix, Prefixed, Shown, Render, Lowered;
    var lower := LowerHeaders(HeadersOf(ctx), ctx.toLower);
    var actual, display := "", "";
    var body: Option<string -> string> := None;
    var bodyParsed := false;
    var i := 0;
    assert s[0..] == s;
    PrefixedNothing(Render(Parse(s), ctx, secrets));
    while true
      invariant 0 <= i <= |s|
      invariant bodyParsed ==> body == ParsedBody(ctx)
      invariant Render(Parse(s), ctx, secrets) == Prefixed(actual, display, Render(Parse(s[i..]), ctx, secrets))
      decreases |s| - i
    {
      var u := s[i..];
      var start := FirstOpen(u);
      var close := start + FirstClose(u[start..]);
      if close == |u| {
        RenderEnd(u, actual, display, ctx, secrets);
        return Ok(actual + u, display + u);
      }
      CloseAfterOpen(u);
      var text, token := u[..start], u[start + 2..close];
      if !bodyParsed && HasPrefix(token, "trigger.body.") {
        body, bodyParsed := ParsedBody(ctx), true;
      }
      var found := ResolveRef(ctx, lower, body, secrets, ParseToken(token));
      LazyBody(ctx, body, secrets, token);
      RenderAt(u, start, close, ctx, secrets);
      if found.Refused? {
        PrefixedError(actual, display, found.error);
        return Err(found.error);
      }
      var a, d := text + Shown(token, found, false), text + Shown(token, found, true);
      PrefixedTwice(actual, display, a, d, Render(Parse(u[close + 1..]), ctx, secrets));
      actual, display := actual + a, display + d;
      assert s[i + close + 1..] == u[close + 1..];
      i := i + close + 1;
    }
  }

  lemma {:induction false} PrefixedError(a: string, d: string, e: string)
    ensures Prefixed(a, d, Err(e)) == Err(e)
  {}

  lemma {:induction false} RenderEnd(u: string, actual: string, display: string, ctx: Context,
                                     secrets: Option<SecretSource>)
    requires FirstOpen(u) + FirstClose(u[FirstOpen(u)..]) == |u|
    ensures Prefixed(actual, display, Render(Parse(u), ctx, secrets)) == Ok(actual + u, display + u)
  {
    hide Parse;
    ParseEndAt(u);
  }

  /** Parsing the body late makes no difference to the token being resolved. */
  lemma {:induction false} LazyBody(ctx: Context, body: Option<string -> string>, secrets: Option<SecretSource>,
                                    token: string)
    requires HasPrefix(token, "trigger.body.") ==> body == ParsedBody(ctx)
    ensures ResolveRef(ctx, Lowered(HeadersOf(ctx), ctx.toLower), body, secrets, ParseToken(token))
         == Resolve(ctx, secrets, token)
  {
    if ParseToken(token).BodyField? {
      assert HasPrefix(token, "trigger.body.");
    }
  }

  // ---- Properties ----

  lemma {:induction false} RenderPrepend(x: string, t: Template, ctx: Context, secrets: Option<SecretSource>)
    ensures Render(PrependText(x, t), ctx, secrets) == Prefixed(x, x, Render(t, ctx, secrets))
  {
    hide Resolve, Shown;
    if t.More? {
      var r := Resolve(ctx, secrets, t.token);
      var a, d := Shown(t.token, r, false), Shown(t.token, r, true);
      assert x + (t.text + a) == (x + t.text) + a && x + (t.text + d) == (x + t.text) + d;
      PrefixedTwice(x, x, t.text + a, t.text + d, Render(t.rest, ctx, secrets));
    }
  }

  lemma {:induction false} ConcatPrefixed(a: string, d: string, o: Output, p: Output)
    ensures Concat(Prefixed(a, d, o), p) == Prefixed(a, d, Concat(o, p))
  {
    if o.Ok? { PrefixedTwice(a, d, o.actual, o.display, p); }
  }

  lemma {:induction false} RenderJoin(t: Template, u: Template, ctx: Context, secrets: Option<SecretSource>)
    ensures Render(Join(t, u), ctx, secrets) == Concat(Render(t, ctx, secrets), Render(u, ctx, secrets))
  {
    hide Resolve, Shown;
    match t {
      case End(tail) => RenderPrepend(tail, u, ctx, secrets);
      case More(text, token, rest) =>
        RenderJoin(rest, u, ctx, secrets);
        var r := Resolve(ctx, secrets, token);
        ConcatPrefixed(text + Shown(token, r, false), text + Shown(token, r, true),
                       Render(rest, ctx, secrets), Render(u, ctx, secrets));
    }
  }

  /** Interpolation distributes over concatenation wherever no token straddles the
      boundary, whatever the values substituted on either side. */
  lemma {:induction false} InterpolateConcat(s: string, t: string, ctx: Context, secrets: Option<SecretSource>)
    requires !Straddles(Tail(Parse(s)), t)
    ensures Render(Parse(s + t), ctx, secrets) == Concat(Render(Parse(s), ctx, secrets), Render(Parse(t), ctx, secrets))
  {
    ParseConcat(s, t);
    RenderJoin(Parse(s), Parse(t), ctx, secrets);
  }

  function Tokens(t: Template): seq<string> {
    match t
    case End(_) => []
    case More(_, token, rest) => [token] + Tokens(rest)
  }

  /** The secrets the template itself names. */
  function SecretRefs(t: Template): set<(string, string)> {
    match t
    case End(_) => {}
    case More(_, token, rest) =>
      (match ParseToken(token)
       case Secret(name, key) => {(name, key)}
       case _ => {}) + SecretRefs(rest)
  }

  ghost predicate AgreeOnRefs(f: SecretSource, g: SecretSource, refs: set<(string, string)>) {
    forall r | r in refs :: f(r.0, r.1) == g(r.0, r.1)
  }

  /** No value substituted into the output can cause another secret to be read: the
      result depends on the secret source only at the references written in the
      template. */
  lemma {:induction false} OnlyTemplateSecretsRead(t: Template, ctx: Context, f: SecretSource, g: SecretSource)
    requires AgreeOnRefs(f, g, SecretRefs(t))
    ensures Render(t, ctx, Some(f)) == Render(t, ctx, Some(g))
  {
    hide ParseToken, StepLookup;
    if t.More? {
      OnlyTemplateSecretsRead(t.rest, ctx, f, g);
      match ParseToken(t.token) {
        case Secret(name, key) => assert (name, key) in SecretRefs(t);
        case _ =>
      }
    }
  }

  /** Display non-interference: two secret sources under which interpolation succeeds
      give the same display text. */
  lemma {:induction false} DisplayHidesSecrets(t: Template, ctx: Context, f: SecretSource, g: SecretSource)
    requires Render(t, ctx, Some(f)).Ok? && Render(t, ctx, Some(g)).Ok?
    ensures Render(t, ctx, Some(f)).display == Render(t, ctx, Some(g)).display
  {
    hide ParseToken, StepLookup;
    if t.More? { DisplayHidesSecrets(t.rest, ctx, f, g); }
  }

  /** The template with its k-th token replaced by the k-th value. */
  function Fill(t: Template, values: seq<string>): string
    requires |values| == |Tokens(t)|
  {
    match t
    case End(tail) => tail
    case More(text, _, rest) => text + values[0] + Fill(rest, values[1..])
  }

  function Values(t: Template, ctx: Context, secrets: Option<SecretSource>, display: bool): (vs: seq<string>)
    ensures |vs| == |Tokens(t)|
  {
    match t
    case End(_) => []
    case More(_, token, rest) =>
      [Shown(token, Resolve(ctx, secrets, token), display)] + Values(rest, ctx, secrets, display)
  }

  lemma {:induction false} RenderFills(t: Template, ctx: Context, secrets: Option<SecretSource>)
    requires Render(t, ctx, secrets).Ok?
    ensures Render(t, ctx, secrets).actual == Fill(t, Values(t, ctx, secrets, false))
    ensures Render(t, ctx, secrets).display == Fill(t, Values(t, ctx, secrets, true))
  {
    hide Resolve;
    if t.More? {
      RenderFills(t.rest, ctx, secrets);
      assert Values(t, ctx, secrets, false)[1..] == Values(t.rest, ctx, secrets, false);
      assert Values(t, ctx, secrets, true)[1..] == Values(t.rest, ctx, secrets, true);
    }
  }

  lemma {:induction false} ValuesAt(t: Template, ctx: Context, secrets: Option<SecretSource>, display: bool, k: nat)
    requires k < |Tokens(t)|
    ensures Values(t, ctx, secrets, display)[k] == Shown(Tokens(t)[k], Resolve(ctx, secrets, Tokens(t)[k]), display)
  {
    hide Resolve, Shown;
    if k > 0 {
      assert Tokens(t)[k] == Tokens(t.rest)[k - 1];
      ValuesAt(t.rest, ctx, secrets, display, k - 1);
    }
  }

  /** The two outputs are the same template filled in, and they differ only at tokens
      that name a secret; there the display shows the marker. */
  lemma {:induction false} OutputsDifferOnlyAtSecrets(t: Template, ctx: Context, secrets: Option<SecretSource>, k: nat)
    requires Render(t, ctx, secrets).Ok? && k < |Tokens(t)|
    ensures Render(t, ctx, secrets).actual == Fill(t, Values(t, ctx, secrets, false))
    ensures Render(t, ctx, secrets).display == Fill(t, Values(t, ctx, secrets, true))
    ensures var a, d := Values(t, ctx, secrets, false)[k], Values(t, ctx, secrets, true)[k];
      a == d || (ParseToken(Tokens(t)[k]).Secret? && d == REDACTED)
  {
    hide ParseToken, StepLookup;
    RenderFills(t, ctx, secrets);
    ValuesAt(t, ctx, secrets, false, k);
    ValuesAt(t, ctx, secrets, true, k);
  }

  /** Without a secret source interpolation never fails and never redacts; with one,
      a template naming no secret renders the same. */
  lemma {:induction false} NoSecretsNoDifference(t: Template, ctx: Context, f: SecretSource)
    ensures Render(t, ctx, None).Ok? && Render(t, ctx, None).actual == Render(t, ctx, None).display
    ensures SecretRefs(t) == {} ==> Render(t, ctx, Some(f)) == Render(t, ctx, None)
  {
    hide ParseToken, StepLookup;
    if t.More? { NoSecretsNoDifference(t.rest, ctx, f); }
  }

  // ---- Map iteration order ----

  function ResultOf(e: StepEntry, key: string): Option<string> {
    if key in e.results then Some(e.results[key]) else None
  }

  predicate Reordered(steps: seq<StepEntry>, other: seq<StepEntry>) {
    multiset(steps) == multiset(other)
  }

  lemma {:induction false} LookupFinds(steps: seq<StepEntry>, name: string, key: string) returns (e: StepEntry)
    requires exists d | d in steps :: Normalized(d.name) == name
    ensures e in steps && Normalized(e.name) == name && StepLookup(steps, name, key) == ResultOf(e, key)
  {
    hide Normalized;
    if Normalized(steps[0].name) == name {
      e := steps[0];
    } else {
      var d :| d in steps && Normalized(d.name) == name;
      assert d in steps[1..];
      e := LookupFinds(steps[1..], name, key);
    }
  }

  lemma {:induction false} LookupNone(steps: seq<StepEntry>, name: string, key: string)
    requires forall e | e in steps :: Normalized(e.name) != name
    ensures StepLookup(steps, name, key) == None
  {
    hide Normalized;
    if steps != [] { LookupNone(steps[1..], name, key); }
  }

  /** In any two orders, either no step has the name or each order picks some step of it. */
  lemma {:induction false} LookupPicks(steps: seq<StepEntry>, other: seq<StepEntry>, name: string, key: string)
    returns (picked: bool, a: StepEntry, b: StepEntry)
    requires Reordered(steps, other)
    ensures picked ==>
      && a in steps && b in steps && Normalized(a.name) == name && Normalized(b.name) == name
      && StepLookup(steps, name, key) == ResultOf(a, key) && StepLookup(other, name, key) == ResultOf(b, key)
    ensures !picked ==> StepLookup(steps, name, key) == None && StepLookup(other, name, key) == None
  {
    hide Normalized, StepLookup;
    forall e ensures e in steps <==> e in other {
      assert e in steps <==> e in multiset(steps);
      assert e in other <==> e in multiset(other);
    }
    picked, a, b := false, StepEntry("", map[]), StepEntry("", map[]);
    if e :| e in steps && Normalized(e.name) == name {
      picked := true;
      a := LookupFinds(steps, name, key);
      b := LookupFinds(other, name, key);
    } else {
      LookupNone(steps, name, key);
      LookupNone(other, name, key);
    }
  }

  /** Entry e moved to the front. */
  lemma {:induction false} PickFirst(steps: seq<StepEntry>, e: StepEntry, key: string) returns (other: seq<StepEntry>)
    requires e in steps
    ensures Reordered(steps, other) && StepLookup(other, Normalized(e.name), key) == ResultOf(e, key)
    ensures other != [] && other[0] == e
  {
    hide Normalized;
    var i :| 0 <= i < |steps| && steps[i] == e;
    other := [e] + (steps[..i] + steps[i + 1..]);
    assert steps == steps[..i] + [e] + steps[i + 1..];
  }

  /** Steps whose names collide after normalization have the same results. */
  predicate CollidersAgree(steps: seq<StepEntry>) {
    forall a, b | a in steps && b in steps && Normalized(a.name) == Normalized(b.name) :: a.results == b.results
  }

  ghost predicate LookupFixed(steps: seq<StepEntry>) {
    forall other: seq<StepEntry>, name: string, key: string | Reordered(steps, other) ::
      StepLookup(other, name, key) == StepLookup(steps, name, key)
  }

  /** The iteration order of the results map cannot be observed by any lookup if and only
      if steps whose names collide have the same results. */
  lemma {:induction false} OrderUnseenIff(steps: seq<StepEntry>)
    ensures LookupFixed(steps) <==> CollidersAgree(steps)
  {
    hide Normalized, StepLookup;
    if CollidersAgree(steps) {
      forall other: seq<StepEntry>, name: string, key: string | Reordered(steps, other)
        ensures StepLookup(other, name, key) == StepLookup(steps, name, key)
      {
        var picked, a, b := LookupPicks(steps, other, name, key);
      }
    }
    if LookupFixed(steps) {
      forall a, b | a in steps && b in steps && Normalized(a.name) == Normalized(b.name)
        ensures a.results == b.results
      {
        forall key: string ensures ResultOf(a, key) == ResultOf(b, key) {
          var first := PickFirst(steps, a, key);
          var second := PickFirst(steps, b, key);
        }
        SameResults(a, b);
      }
    }
  }

  lemma {:induction false} SameResults(a: StepEntry, b: StepEntry)
    requires forall key: string :: ResultOf(a, key) == ResultOf(b, key)
    ensures a.results == b.results
  {
    forall key | key in a.results ensures key in b.results && a.results[key] == b.results[key] {
      assert ResultOf(a, key) == ResultOf(b, key);
    }
    forall key | key in b.results ensures key in a.results { assert ResultOf(a, key) == ResultOf(b, key); }
  }

  // ---- ... and what of it shows in the output ----

  function StepToken(name: string, key: string): string {
    "steps." + name + ".results." + key
  }

  /** The text a token shows when entry e is the one found. */
  function ShownAs(e: StepEntry, name: string, key: string): string {
    if key in e.results then e.results[key] else Placeholder(StepToken(name, key))
  }

  /** Some token can be written that reads this result. */
  predicate Writable(name: string, key: string) {
    ')' !in StepToken(name, key) && ParseToken(StepToken(name, key)) == StepResult(name, key)
  }

  lemma {:induction false} SplitPlain(name: string, key: string)
    requires '.' !in name
    ensures SplitFirst(name + ".results." + key, ".results.") == Some((name, key))
  {
    var s := name + ".results." + key;
    if name == "" {
      assert s[..9] == ".results." && s[9..] == key;
    } else {
      assert s[0] != '.' && s[1..] == name[1..] + ".results." + key;
      SplitPlain(name[1..], key);
      assert [name[0]] + name[1..] == name;
    }
  }

  /** Names without a dot can always be written. */
  lemma {:induction false} PlainIsWritable(name: string, key: string)
    requires '.' !in name && ')' !in name && ')' !in key
    ensures Writable(name, key)
  {
    var token := StepToken(name, key);
    assert token[..6] == "steps.";
    assert token[6..] == name + ".results." + key;
    SplitPlain(name, key);
  }

  /** Steps whose names collide show the same text for every token that can be written. */
  ghost predicate CollidersShowAlike(steps: seq<StepEntry>) {
    forall a, b, key: string | a in steps && b in steps && Normalized(a.name) == Normalized(b.name)
      && Writable(Normalized(a.name), key) ::
      ShownAs(a, Normalized(a.name), key) == ShownAs(b, Normalized(a.name), key)
  }

  // ---- Headers ----

  lemma {:induction false} LoweredFinds(headers: seq<HeaderEntry>, toLower: string -> string, low: string)
    returns (h: HeaderEntry)
    requires exists g | g in headers :: toLower(g.name) == low
    ensures h in headers && toLower(h.name) == low && ValueOf(Lowered(headers, toLower), low) == h.value
  {
    var front, last := headers[..|headers| - 1], headers[|headers| - 1];
    if toLower(last.name) == low {
      h := last;
    } else {
      var g :| g in headers && toLower(g.name) == low;
      assert g in front;
      h := LoweredFinds(front, toLower, low);
    }
  }

  lemma {:induction false} LoweredNone(headers: seq<HeaderEntry>, toLower: string -> string, low: string)
    requires forall h | h in headers :: toLower(h.name) != low
    ensures low !in Lowered(headers, toLower)
  {
    if headers != [] { LoweredNone(headers[..|headers| - 1], toLower, low); }
  }

  /** Headers whose names collide after lower-casing, and can be named by a token, have the
      same value. */
  ghost predicate HeadersAgree(ctx: Context) {
    forall g, h, name: string | g in HeadersOf(ctx) && h in HeadersOf(ctx) && ')' !in name
      && ctx.toLower(g.name) == ctx.toLower(name) && ctx.toLower(h.name) == ctx.toLower(name) :: g.value == h.value
  }

  lemma {:induction false} HeaderShows(ctx: Context, headers: seq<HeaderEntry>, name: string)
    requires HeadersAgree(ctx) && multiset(HeadersOf(ctx)) == multiset(headers) && ')' !in name
    ensures ValueOf(Lowered(headers, ctx.toLower), ctx.toLower(name))
         == ValueOf(Lowered(HeadersOf(ctx), ctx.toLower), ctx.toLower(name))
  {
    hide Lowered;
    var mine, low := HeadersOf(ctx), ctx.toLower(name);
    forall h ensures h in mine <==> h in headers {
      assert h in mine <==> h in multiset(mine);
      assert h in headers <==> h in multiset(headers);
    }
    if h :| h in mine && ctx.toLower(h.name) == low {
      var a := LoweredFinds(mine, ctx.toLower, low);
      var b := LoweredFinds(headers, ctx.toLower, low);
    } else {
      LoweredNone(mine, ctx.toLower, low);
      LoweredNone(headers, ctx.toLower, low);
    }
  }

  /** Header h moved to the end. */
  lemma {:induction false} PickLast(headers: seq<HeaderEntry>, h: HeaderEntry, toLower: string -> string)
    returns (other: seq<HeaderEntry>)
    requires h in headers
    ensures multiset(headers) == multiset(other) && ValueOf(Lowered(other, toLower), toLower(h.name)) == h.value
  {
    var i :| 0 <= i < |headers| && headers[i] == h;
    other := (headers[..i] + headers[i + 1..]) + [h];
    assert headers == headers[..i] + [h] + headers[i + 1..];
  }

  // ---- Both maps ----

  /** The same context with its maps iterated in another order. */
  function WithOrder(ctx: Context, steps: seq<StepEntry>, headers: seq<HeaderEntry>): Context {
    ctx.(steps := steps,
         trigger := if ctx.trigger.None? then None else Some(ctx.trigger.value.(headers := headers)))
  }

  ghost predicate SomeOrder(ctx: Context, steps: seq<StepEntry>, headers: seq<HeaderEntry>) {
    Reordered(ctx.steps, steps) && multiset(HeadersOf(ctx)) == multiset(headers)
  }

  lemma {:induction false} TokenShows(ctx: Context, steps: seq<StepEntry>, headers: seq<HeaderEntry>,
                                      secrets: Option<SecretSource>, token: string)
    requires CollidersShowAlike(ctx.steps) && HeadersAgree(ctx) && SomeOrder(ctx, steps, headers) && ')' !in token
    ensures var r, q := Resolve(ctx, secrets, token), Resolve(WithOrder(ctx, steps, headers), secrets, token);
      && r.Refused? == q.Refused? && (r.Refused? ==> r == q)
      && forall display: bool :: Shown(token, r, display) == Shown(token, q, display)
  {
    hide Normalized, StepLookup, ParseToken, Lowered;
    PrintParseToken(token);
    match ParseToken(token) {
      case StepResult(name, key) =>
        assert token == StepToken(name, key) && Writable(name, key);
        var picked, a, b := LookupPicks(ctx.steps, steps, name, key);
        assert picked ==> ShownAs(a, name, key) == ShownAs(b, name, key);
      case Header(name) =>
        assert token == "trigger.headers." + name;
        assert forall c | c in name :: c in token;
        if ctx.trigger.Some? { HeaderShows(ctx, headers, name); }
      case _ =>
    }
  }

  lemma {:induction false} RenderFixed(t: Template, ctx: Context, steps: seq<StepEntry>, headers: seq<HeaderEntry>,
                                       secrets: Option<SecretSource>)
    requires CollidersShowAlike(ctx.steps) && HeadersAgree(ctx) && SomeOrder(ctx, steps, headers) && Canonical(t)
    ensures Render(t, WithOrder(ctx, steps, headers), secrets) == Render(t, ctx, secrets)
  {
    hide Resolve, Shown, CollidersShowAlike, HeadersAgree;
    if t.More? {
      TokenShows(ctx, steps, headers, secrets, t.token);
      RenderFixed(t.rest, ctx, steps, headers, secrets);
    }
  }

  /** The template that consists of one token. */
  lemma {:induction false} RenderToken(token: string, ctx: Context)
    requires ')' !in token && !Resolve(ctx, None, token).Refused? && !Resolve(ctx, None, token).Hidden?
    ensures var shown := Shown(token, Resolve(ctx, None, token), false);
      Render(Parse(Placeholder(token)), ctx, None) == Ok(shown, shown)
  {
    hide Parse, Resolve;
    var t := More("", token, End(""));
    assert Print(t) == Placeholder(token);
    assert Canonical(t);
    SegmentationUnique(Placeholder(token), t);
  }

  ghost predicate OutputFixed(ctx: Context) {
    forall steps: seq<StepEntry>, headers: seq<HeaderEntry>, s: string, secrets: Option<SecretSource>
      | SomeOrder(ctx, steps, headers) ::
      Render(Parse(s), WithOrder(ctx, steps, headers), secrets) == Render(Parse(s), ctx, secrets)
  }

  /** Interpolation gives the same outputs for every template in every iteration order of
      both maps, if and only if steps whose names collide show the same text for every
      token that can be written, and headers whose names collide have the same value. */
  lemma {:induction false} IterationOrderIff(ctx: Context)
    ensures OutputFixed(ctx) <==> CollidersShowAlike(ctx.steps) && HeadersAgree(ctx)
  {
    hide Parse, Render, Normalized, StepLookup, Writable, SomeOrder;
    if CollidersShowAlike(ctx.steps) && HeadersAgree(ctx) {
      forall steps: seq<StepEntry>, headers: seq<HeaderEntry>, s: string, secrets: Option<SecretSource>
        | SomeOrder(ctx, steps, headers)
        ensures Render(Parse(s), WithOrder(ctx, steps, headers), secrets) == Render(Parse(s), ctx, secrets)
      {
        PrintParse(s);
        RenderFixed(Parse(s), ctx, steps, headers, secrets);
      }
    }
    if OutputFixed(ctx) {
      forall a, b, key: string | a in ctx.steps && b in ctx.steps && Normalized(a.name) == Normalized(b.name)
        && Writable(Normalized(a.name), key)
        ensures ShownAs(a, Normalized(a.name), key) == ShownAs(b, Normalized(a.name), key)
      {
        StepPicked(ctx, a, key);
        StepPicked(ctx, b, key);
      }
      forall g, h, name: string | g in HeadersOf(ctx) && h in HeadersOf(ctx) && ')' !in name
        && ctx.toLower(g.name) == ctx.toLower(name) && ctx.toLower(h.name) == ctx.toLower(name)
        ensures g.value == h.value
      {
        HeaderPicked(ctx, g, name);
        HeaderPicked(ctx, h, name);
      }
    }
  }

  lemma {:induction false} StepPicked(ctx: Context, e: StepEntry, key: string)
    requires OutputFixed(ctx) && e in ctx.steps && Writable(Normalized(e.name), key)
    ensures var name := Normalized(e.name);
      var shown := ShownAs(e, name, key);
      Render(Parse(Placeholder(StepToken(name, key))), ctx, None) == Ok(shown, shown)
  {
    hide Parse, Render, Normalized, StepLookup, ParseToken, Lowered;
    var name := Normalized(e.name);
    var first := PickFirst(ctx.steps, e, key);
    assert SomeOrder(ctx, first, HeadersOf(ctx));
    RenderToken(StepToken(name, key), WithOrder(ctx, first, HeadersOf(ctx)));
  }

  lemma {:induction false} HeaderPicked(ctx: Context, h: HeaderEntry, name: string)
    requires OutputFixed(ctx) && h in HeadersOf(ctx) && ')' !in name && ctx.toLower(h.name) == ctx.toLower(name)
    ensures Render(Parse(Placeholder("trigger.headers." + name)), ctx, None) == Ok(h.value, h.value)
  {
    hide Parse, Render, ParseToken, Lowered;
    var last := PickLast(HeadersOf(ctx), h, ctx.toLower);
    assert SomeOrder(ctx, ctx.steps, last);
    HeaderToken(name);
    RenderToken("trigger.headers." + name, WithOrder(ctx, ctx.steps, last));
  }

  lemma {:induction false} HeaderToken(name: string)
    ensures ParseToken("trigger.headers." + name) == Header(name)
    ensures ')' !in name ==> ')' !in "trigger.headers." + name
  {
    var token := "trigger.headers." + name;
    assert token[..16] == "trigger.headers." && token[16..] == name;
    assert token[0] == 't' && token[8] == 'h';
    assert token[..6][0] == 't' && token[..7][0] == 't' && token[..13][8] == 'h';
    assert "steps."[0] == 's' && "params."[0] == 'p' && "trigger.body"[8] == 'b' && "trigger.body."[8] == 'b';
  }
}
