/** What a template of one token is rendered to, for every kind of token. */
module InterpolatedTokens {
  import opened Common
  import opened Interpolation

  function Quoted(token: string): string {
    "$(" + token + ")"
  }

  function Same(s: string): Output {
    Ok(s, s)
  }

  lemma {:induction false} OneToken(token: string, ctx: Context, secrets: Option<SecretSource>)
    requires ')' !in token
    ensures var r := Resolve(ctx, secrets, token);
      Render(Parse(Quoted(token)), ctx, secrets) ==
        if r.Refused? then Err(r.error) else Ok(Shown(token, r, false), Shown(token, r, true))
  {
    hide Parse, Resolve, Shown;
    var t := More("", token, End(""));
    assert Print(t) == Quoted(token);
    assert Canonical(t);
    SegmentationUnique(Quoted(token), t);
    var r := Resolve(ctx, secrets, token);
    assert "" + Shown(token, r, false) + "" == Shown(token, r, false);
    assert "" + Shown(token, r, true) + "" == Shown(token, r, true);
  }

  lemma {:induction false} Starts(prefix: string, rest: string)
    ensures HasPrefix(prefix + rest, prefix) && (prefix + rest)[|prefix|..] == rest
  {
    assert (prefix + rest)[..|prefix|] == prefix;
  }

  /** Strings that differ at a place the prefix covers. */
  lemma {:induction false} StartsOtherwise(s: string, prefix: string, i: nat)
    requires i < |prefix| && i < |s| && s[i] != prefix[i]
    ensures !HasPrefix(s, prefix) && s != prefix
  {
    assert |prefix| <= |s| ==> s[..|prefix|][i] == s[i];
  }

  lemma {:induction false} NoParen(a: string, b: string)
    requires ')' !in a && ')' !in b
    ensures ')' !in a + b
  {}

  // ---- Parameters ----

  /** $(params.n) is the parameter n, or stays as it is if there is none. */
  lemma {:induction false} ParamRenders(n: string, ctx: Context, secrets: Option<SecretSource>)
    requires ')' !in n
    ensures Render(Parse(Quoted("params." + n)), ctx, secrets) ==
      Same(if n in ctx.params then ctx.params[n] else Quoted("params." + n))
  {
    hide Parse, Render, HasPrefix, Lowered;
    var token := "params." + n;
    NoParen("params.", n);
    Starts("params.", n);
    StartsOtherwise(token, "steps.", 0);
    OneToken(token, ctx, secrets);
  }

  // ---- The trigger ----

  /** $(trigger.body) is the body. */
  lemma {:induction false} BodyRenders(ctx: Context, secrets: Option<SecretSource>)
    ensures Render(Parse(Quoted("trigger.body")), ctx, secrets) ==
      Same(if ctx.trigger.Some? then ctx.trigger.value.body else Quoted("trigger.body"))
  {
    hide Parse, Render, HasPrefix, Lowered;
    StartsOtherwise("trigger.body", "steps.", 0);
    StartsOtherwise("trigger.body", "params.", 0);
    OneToken("trigger.body", ctx, secrets);
  }

  /** $(trigger.body.path) is what the parsed body has at the path, and stays as it is
      without a trigger, with an empty body or one that does not parse. */
  lemma {:induction false} BodyFieldRenders(path: string, ctx: Context, secrets: Option<SecretSource>)
    requires ')' !in path
    ensures Render(Parse(Quoted("trigger.body." + path)), ctx, secrets) ==
      Same(if ctx.trigger.Some? && ctx.trigger.value.body != ""
              && ctx.parseBody(ctx.trigger.value.body, ctx.trigger.value.contentType).Some?
           then ctx.parseBody(ctx.trigger.value.body, ctx.trigger.value.contentType).value(path)
           else Quoted("trigger.body." + path))
  {
    hide Parse, Render, HasPrefix, Lowered;
    var token := "trigger.body." + path;
    NoParen("trigger.body.", path);
    Starts("trigger.body.", path);
    StartsOtherwise(token, "steps.", 0);
    StartsOtherwise(token, "params.", 0);
    assert |token| > |"trigger.body"|;
    OneToken(token, ctx, secrets);
  }

  lemma {:induction false} ScalarToken(f: Scalar)
    ensures ParseToken(ScalarName(f)) == TriggerScalar(f) && ')' !in ScalarName(f)
  {
    hide HasPrefix;
    var token := ScalarName(f);
    StartsOtherwise(token, "steps.", 0);
    StartsOtherwise(token, "params.", 0);
    StartsOtherwise(token, "trigger.body", 8);
    StartsOtherwise(token, "trigger.body.", 8);
    StartsOtherwise(token, "trigger.headers.", 8);
  }

  lemma {:induction false} ScalarIs(token: string, f: Scalar, ctx: Context, secrets: Option<SecretSource>)
    requires token == ScalarName(f)
    ensures Render(Parse(Quoted(token)), ctx, secrets) ==
      Same(if ctx.trigger.Some? then ctx.trigger.value.scalars(f) else Quoted(token))
  {
    hide Parse, Render, ParseToken, ScalarName, Lowered;
    ScalarToken(f);
    OneToken(token, ctx, secrets);
  }

  /** Each scalar token is its own field. */
  lemma {:induction false} ScalarRenders(ctx: Context, secrets: Option<SecretSource>)
    requires ctx.trigger.Some?
    ensures Render(Parse(Quoted("trigger.topic")), ctx, secrets) == Same(ctx.trigger.value.scalars(Topic))
    ensures Render(Parse(Quoted("trigger.partition")), ctx, secrets) == Same(ctx.trigger.value.scalars(Partition))
    ensures Render(Parse(Quoted("trigger.offset")), ctx, secrets) == Same(ctx.trigger.value.scalars(Offset))
    ensures Render(Parse(Quoted("trigger.key")), ctx, secrets) == Same(ctx.trigger.value.scalars(Scalar.Key))
    ensures Render(Parse(Quoted("trigger.scheduledTime")), ctx, secrets)
         == Same(ctx.trigger.value.scalars(ScheduledTime))
  {
    hide Parse, Render;
    ScalarIs("trigger.topic", Topic, ctx, secrets);
    ScalarIs("trigger.partition", Partition, ctx, secrets);
    ScalarIs("trigger.offset", Offset, ctx, secrets);
    ScalarIs("trigger.key", Scalar.Key, ctx, secrets);
    ScalarIs("trigger.scheduledTime", ScheduledTime, ctx, secrets);
  }

  /** h is the last header of that lower-cased name. */
  predicate LastOf(headers: seq<HeaderEntry>, toLower: string -> string, name: string, i: nat) {
    && i < |headers| && toLower(headers[i].name) == toLower(name)
    && forall j | i < j < |headers| :: toLower(headers[j].name) != toLower(name)
  }

  lemma {:induction false} LastDecides(headers: seq<HeaderEntry>, toLower: string -> string, name: string, i: nat)
    requires LastOf(headers, toLower, name, i)
    ensures ValueOf(Lowered(headers, toLower), toLower(name)) == headers[i].value
  {
    if i < |headers| - 1 { LastDecides(headers[..|headers| - 1], toLower, name, i); }
  }

  /** $(trigger.headers.name) is the last header of that name in any case, or empty. */
  lemma {:induction false} HeaderRenders(name: string, ctx: Context, secrets: Option<SecretSource>)
    requires ')' !in name && ctx.trigger.Some?
    ensures (forall h | h in ctx.trigger.value.headers :: ctx.toLower(h.name) != ctx.toLower(name)) ==>
      Render(Parse(Quoted("trigger.headers." + name)), ctx, secrets) == Same("")
    ensures forall i: nat | LastOf(ctx.trigger.value.headers, ctx.toLower, name, i) ::
      Render(Parse(Quoted("trigger.headers." + name)), ctx, secrets) == Same(ctx.trigger.value.headers[i].value)
  {
    hide Parse, Render, HasPrefix, Lowered, ParseToken;
    var token := "trigger.headers." + name;
    HeaderToken(name);
    OneToken(token, ctx, secrets);
    var headers := ctx.trigger.value.headers;
    if forall h | h in headers :: ctx.toLower(h.name) != ctx.toLower(name) {
      LoweredNone(headers, ctx.toLower, ctx.toLower(name));
    }
    forall i: nat | LastOf(headers, ctx.toLower, name, i)
      ensures ValueOf(Lowered(headers, ctx.toLower), ctx.toLower(name)) == headers[i].value
    {
      LastDecides(headers, ctx.toLower, name, i);
    }
  }

  // ---- Secrets ----

  lemma {:induction false} SplitAtDot(name: string, key: string)
    requires '.' !in name
    ensures SplitFirst(name + "." + key, ".") == Some((name, key))
  {
    var s := name + "." + key;
    if name == "" {
      assert s[..1] == "." && s[1..] == key;
    } else {
      assert s[..1][0] == name[0] && name[0] != '.';
      assert s[1..] == name[1..] + "." + key;
      SplitAtDot(name[1..], key);
      assert [name[0]] + name[1..] == name;
    }
  }

  lemma {:induction false} SecretToken(name: string, key: string)
    requires '.' !in name && ')' !in name && ')' !in key
    ensures var token := "secrets." + name + "." + key;
      ParseToken(token) == Secret(name, key) && ')' !in token
  {
    hide HasPrefix, SplitFirst;
    var token := "secrets." + (name + "." + key);
    assert token == "secrets." + name + "." + key;
    Starts("secrets.", name + "." + key);
    StartsOtherwise(token, "steps.", 1);
    StartsOtherwise(token, "params.", 0);
    StartsOtherwise(token, "trigger.body", 0);
    StartsOtherwise(token, "trigger.body.", 0);
    StartsOtherwise(token, "trigger.headers.", 0);
    forall f: Scalar ensures token != ScalarName(f) { StartsOtherwise(token, ScalarName(f), 0); }
    SplitAtDot(name, key);
  }

  /** $(secrets.name.key) is the secret's value, shown as [REDACTED]; a secret that cannot be
      read fails the whole template, and without a source the text stays as it is. */
  lemma {:induction false} SecretRenders(name: string, key: string, ctx: Context, secrets: Option<SecretSource>)
    requires '.' !in name && ')' !in name && ')' !in key
    ensures Render(Parse(Quoted("secrets." + name + "." + key)), ctx, secrets) ==
      if secrets.None? then Same(Quoted("secrets." + name + "." + key))
      else match secrets.value(name, key)
        case Got(v) => Ok(v, "[REDACTED]")
        case Denied(e) => Err(e)
  {
    hide Parse, Render, ParseToken, Lowered;
    SecretToken(name, key);
    OneToken("secrets." + name + "." + key, ctx, secrets);
  }

  // ---- Steps ----

  /** Step i is the first whose name reads `name` with its hyphens as underscores. */
  predicate FirstOf(steps: seq<StepEntry>, name: string, i: nat) {
    i < |steps| && Reads(steps[i].name, name) && forall j | 0 <= j < i :: !Reads(steps[j].name, name)
  }

  predicate Reads(step: string, name: string) {
    |step| == |name| && forall j | 0 <= j < |step| :: name[j] == (if step[j] == '-' then '_' else step[j])
  }

  lemma {:induction false} ReadsIff(step: string, name: string)
    ensures Reads(step, name) <==> Normalized(step) == name
  {}

  lemma {:induction false} FirstDecides(steps: seq<StepEntry>, name: string, key: string, i: nat)
    requires FirstOf(steps, name, i)
    ensures StepLookup(steps, name, key) == ResultOf(steps[i], key)
    decreases i
  {
    hide Normalized;
    ReadsIff(steps[0].name, name);
    if i > 0 { FirstDecides(steps[1..], name, key, i - 1); }
  }

  /** $(steps.name.results.key) is the result of the first step of that name, hyphens read
      as underscores, and stays as it is if that step has no such result or there is none. */
  lemma {:induction false} StepRenders(name: string, key: string, ctx: Context, secrets: Option<SecretSource>)
    requires '.' !in name && ')' !in name && ')' !in key
    ensures (forall e | e in ctx.steps :: !Reads(e.name, name)) ==>
      Render(Parse(Quoted("steps." + name + ".results." + key)), ctx, secrets) ==
        Same(Quoted("steps." + name + ".results." + key))
    ensures forall i: nat | FirstOf(ctx.steps, name, i) ::
      Render(Parse(Quoted("steps." + name + ".results." + key)), ctx, secrets) ==
        Same(if key in ctx.steps[i].results then ctx.steps[i].results[key]
             else Quoted("steps." + name + ".results." + key))
  {
    hide Parse, Render, HasPrefix, Lowered, ParseToken, StepLookup, Normalized;
    var token := StepToken(name, key);
    PlainIsWritable(name, key);
    OneToken(token, ctx, secrets);
    if forall e | e in ctx.steps :: !Reads(e.name, name) {
      forall e | e in ctx.steps ensures Normalized(e.name) != name { ReadsIff(e.name, name); }
      LookupNone(ctx.steps, name, key);
    }
    forall i: nat | FirstOf(ctx.steps, name, i)
      ensures StepLookup(ctx.steps, name, key) == ResultOf(ctx.steps[i], key)
    {
      FirstDecides(ctx.steps, name, key, i);
    }
  }

  // ---- Anything else ----

  /** A token of no known kind stays as it is. */
  lemma {:induction false} UnknownRenders(token: string, ctx: Context, secrets: Option<SecretSource>)
    requires ')' !in token && !HasPrefix(token, "steps.") && !HasPrefix(token, "params.")
    requires !HasPrefix(token, "trigger.") && !HasPrefix(token, "secrets.")
    ensures Render(Parse(Quoted(token)), ctx, secrets) == Same(Quoted(token))
  {
    hide Parse, Render, Lowered;
    assert |token| >= 13 ==> token[..13][..8] == token[..8];
    assert |token| >= 16 ==> token[..16][..8] == token[..8];
    assert "trigger.body."[..8] == "trigger." && "trigger.headers."[..8] == "trigger.";
    OneToken(token, ctx, secrets);
  }
}
