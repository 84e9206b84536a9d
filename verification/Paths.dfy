// Path, method and protocol normalisation of worker/db/query-engine.js and
// worker/ui/modules/protocol.js.
module Paths {
  import opened Common
  import opened Text

  // ---------------------------------------------------------------- canonicalizePath

  // A path read left to right: literal characters, and `{...}` parameters with their text.
  datatype Token = Literal(c: char) | Parameter(text: string)

  predicate Stops(c: char) {
    c == '/' || c == '}'
  }

  // How many characters come before the first '/' or '}'.
  function Run(s: string): (n: nat)
    ensures n <= |s|
    ensures forall i :: 0 <= i < n ==> !Stops(s[i])
    ensures n < |s| ==> Stops(s[n])
  {
    if s == "" || Stops(s[0]) then 0 else 1 + Run(s[1..])
  }

  // Does a match of /\{[^/}]+\}/ start at the head of s?
  predicate ParameterAtHead(s: string) {
    s != "" && s[0] == '{' && var n := Run(s[1..]); n >= 1 && 1 + n < |s| && s[1 + n] == '}'
  }

  function Tokens(s: string): seq<Token>
    decreases |s|
  {
    if s == "" then []
    else if ParameterAtHead(s) then
      var n := Run(s[1..]);
      [Parameter(s[1..1 + n])] + Tokens(s[2 + n..])
    else [Literal(s[0])] + Tokens(s[1..])
  }

  function TokenText(t: Token): string {
    match t
    case Literal(c) => [c]
    case Parameter(text) => "{" + text + "}"
  }

  function Spell(ts: seq<Token>): string {
    if ts == [] then "" else TokenText(ts[0]) + Spell(ts[1..])
  }

  // The tokens with every parameter text forgotten.
  function Blank(t: Token): Token {
    if t.Parameter? then Parameter("_") else t
  }

  function Shape(ts: seq<Token>): (r: seq<Token>)
    ensures |r| == |ts|
    ensures forall i :: 0 <= i < |ts| ==> r[i] == Blank(ts[i])
  {
    seq(|ts|, i requires 0 <= i < |ts| => Blank(ts[i]))
  }

  // pathStr.replace(/\{[^/}]+\}/g, "{_}")
  function Canonicalize(s: string): string
    decreases |s|
  {
    if s == "" then ""
    else if ParameterAtHead(s) then "{_}" + Canonicalize(s[2 + Run(s[1..])..])
    else [s[0]] + Canonicalize(s[1..])
  }

  function CanonicalizePath(path: Option<string>): Option<string> {
    match path
    case None => None
    case Some(s) => Some(Canonicalize(s))
  }

  function Slashes(s: string): nat {
    if s == "" then 0 else (if s[0] == '/' then 1 else 0) + Slashes(s[1..])
  }

  lemma {:induction false} ShapeOfCons(t: Token, ts: seq<Token>)
    ensures Shape([t] + ts) == [Blank(t)] + Shape(ts)
  {
  }

  lemma {:induction false} SpellOfCons(t: Token, ts: seq<Token>)
    ensures Spell([t] + ts) == TokenText(t) + Spell(ts)
  {
    assert ([t] + ts)[1..] == ts;
  }

  lemma {:induction false} TokensStep(s: string)
    ensures Tokens(s) == if s == "" then []
                         else if ParameterAtHead(s) then
                           [Parameter(s[1..1 + Run(s[1..])])] + Tokens(s[2 + Run(s[1..])..])
                         else [Literal(s[0])] + Tokens(s[1..])
  {
  }

  lemma {:induction false} CanonicalizeStep(s: string)
    ensures Canonicalize(s) == if s == "" then ""
                               else if ParameterAtHead(s) then "{_}" + Canonicalize(s[2 + Run(s[1..])..])
                               else [s[0]] + Canonicalize(s[1..])
  {
  }

  lemma NothingToSpell()
    ensures Spell([]) == ""
  {
  }

  lemma LiteralText(c: char)
    ensures TokenText(Literal(c)) == [c]
  {
  }

  lemma ParameterThenRest(s: string)
    requires ParameterAtHead(s)
    ensures s == TokenText(Parameter(s[1..1 + Run(s[1..])])) + s[2 + Run(s[1..])..]
  {
    var n := Run(s[1..]);
    assert s[..2 + n] == "{" + s[1..1 + n] + "}";
    assert s == s[..2 + n] + s[2 + n..];
  }

  // Reading a path into tokens loses nothing.
  lemma {:induction false} SpellTokens(s: string)
    ensures Spell(Tokens(s)) == s
    decreases |s|
  {
    hide Spell, TokenText, Tokens, Run;
    TokensStep(s);
    if s == "" {
      NothingToSpell();
    } else if ParameterAtHead(s) {
      var n := Run(s[1..]);
      SpellTokens(s[2 + n..]);
      SpellOfCons(Parameter(s[1..1 + n]), Tokens(s[2 + n..]));
      ParameterThenRest(s);
    } else {
      SpellTokens(s[1..]);
      SpellOfCons(Literal(s[0]), Tokens(s[1..]));
      LiteralText(s[0]);
    }
  }

  lemma SpellOfShape(t: Token, ts: seq<Token>)
    ensures Spell(Shape([t] + ts)) == TokenText(Blank(t)) + Spell(Shape(ts))
  {
    ShapeOfCons(t, ts);
    SpellOfCons(Blank(t), Shape(ts));
  }

  lemma BlankText(text: string)
    ensures TokenText(Blank(Parameter(text))) == "{_}"
  {
  }

  lemma {:induction false} CanonicalizeSpellsShape(s: string)
    ensures Canonicalize(s) == Spell(Shape(Tokens(s)))
    decreases |s|
  {
    hide Spell, Tokens, TokenText, Shape, Run, Canonicalize;
    TokensStep(s);
    CanonicalizeStep(s);
    if s == "" {
      NothingToSpell();
    } else if ParameterAtHead(s) {
      var n := Run(s[1..]);
      CanonicalizeSpellsShape(s[2 + n..]);
      SpellOfShape(Parameter(s[1..1 + n]), Tokens(s[2 + n..]));
      BlankText(s[1..1 + n]);
    } else {
      CanonicalizeSpellsShape(s[1..]);
      SpellOfShape(Literal(s[0]), Tokens(s[1..]));
      LiteralText(s[0]);
    }
  }

  // Text that reaches '/' or the end without a '}' is copied as it stands.
  lemma {:induction false} RunIsCopied(s: string)
    requires Run(s) < |s| ==> s[Run(s)] == '/'
    ensures |Canonicalize(s)| >= Run(s)
    ensures Run(Canonicalize(s)) == Run(s)
    ensures Run(s) < |s| ==> Run(s) < |Canonicalize(s)| && Canonicalize(s)[Run(s)] == '/'
    ensures Run(s) == |s| ==> Canonicalize(s) == s
    decreases |s|
  {
    if s != "" && !Stops(s[0]) {
      assert Run(s) == 1 + Run(s[1..]);
      RunIsCopied(s[1..]);
      assert Canonicalize(s)[1..] == Canonicalize(s[1..]);
    }
  }

  lemma {:induction false} CanonicalTokens(s: string)
    ensures Tokens(Canonicalize(s)) == Shape(Tokens(s))
    decreases |s|
  {
    hide Tokens, Run, Canonicalize;
    TokensStep(s);
    CanonicalizeStep(s);
    TokensStep(Canonicalize(s));
    if s != "" {
      var r := Canonicalize(s);
      if ParameterAtHead(s) {
        var n := Run(s[1..]);
        var rest := s[2 + n..];
        CanonicalTokens(rest);
        ShapeOfCons(Parameter(s[1..1 + n]), Tokens(rest));
        BlankAtHead(Canonicalize(rest));
      } else {
        CanonicalTokens(s[1..]);
        ShapeOfCons(Literal(s[0]), Tokens(s[1..]));
        LiteralStaysLiteral(s);
      }
    }
  }

  lemma LiteralStaysLiteral(s: string)
    requires s != "" && !ParameterAtHead(s)
    ensures var r := Canonicalize(s);
            r != "" && !ParameterAtHead(r) && r[0] == s[0] && r[1..] == Canonicalize(s[1..])
  {
    hide Canonicalize, Run;
    CanonicalizeStep(s);
    if s[0] == '{' {
      assert s == "{" + s[1..];
      LoneBraceStaysLone(s[1..]);
      assert Canonicalize(s) == "{" + Canonicalize(s[1..]);
    }
  }

  lemma BlankAtHead(rest: string)
    ensures var r := "{_}" + rest;
            ParameterAtHead(r) && Run(r[1..]) == 1 && r[1..2] == "_" && r[3..] == rest
  {
    var r := "{_}" + rest;
    assert r[1..] == "_}" + rest;
    assert r[1..][1..][0] == '}';
    assert Run(r[1..][1..]) == 0;
  }

  lemma {:induction false} LoneBraceStaysLone(rest: string)
    requires !ParameterAtHead("{" + rest)
    ensures !ParameterAtHead("{" + Canonicalize(rest))
  {
    var c := Canonicalize(rest);
    assert ("{" + rest)[1..] == rest;
    assert ("{" + c)[1..] == c;
    if Run(rest) < |rest| && rest[Run(rest)] == '}' {
      assert Run(rest) == 0;
      assert c[0] == '}';
    } else {
      RunIsCopied(rest);
    }
  }

  lemma {:induction false} CanonicalizeIsIdempotent(s: string)
    ensures Canonicalize(Canonicalize(s)) == Canonicalize(s)
  {
    CanonicalTokens(s);
    CanonicalizeSpellsShape(s);
    CanonicalizeSpellsShape(Canonicalize(s));
    assert Shape(Shape(Tokens(s))) == Shape(Tokens(s));
  }

  // Two paths get the same canonical form iff they differ only in parameter texts.
  lemma {:induction false} SameCanonicalFormIffSameShape(s: string, t: string)
    ensures Canonicalize(s) == Canonicalize(t) <==> Shape(Tokens(s)) == Shape(Tokens(t))
  {
    CanonicalTokens(s);
    CanonicalTokens(t);
    CanonicalizeSpellsShape(s);
    CanonicalizeSpellsShape(t);
  }

  lemma {:induction false} SlashesOfConcat(s: string, t: string)
    ensures Slashes(s + t) == Slashes(s) + Slashes(t)
  {
    if s == "" {
      assert s + t == t;
    } else {
      SlashesOfConcat(s[1..], t);
      assert (s + t)[1..] == s[1..] + t;
    }
  }

  lemma {:induction false} NoSlashes(s: string)
    requires '/' !in s
    ensures Slashes(s) == 0
  {
    if s != "" {
      NoSlashes(s[1..]);
    }
  }

  lemma {:induction false} CanonicalizeKeepsSlashes(s: string)
    ensures Slashes(Canonicalize(s)) == Slashes(s)
    decreases |s|
  {
    if s != "" {
      if ParameterAtHead(s) {
        var n := Run(s[1..]);
        var head := s[..2 + n];
        CanonicalizeKeepsSlashes(s[2 + n..]);
        forall i | 0 <= i < |head| ensures head[i] != '/' {
          if 1 <= i < 1 + n {
            assert head[i] == s[1..][i - 1];
          }
        }
        NoSlashes(head);
        NoSlashes("{_}");
        SlashesOfConcat(head, s[2 + n..]);
        SlashesOfConcat("{_}", Canonicalize(s[2 + n..]));
        assert s == head + s[2 + n..];
      } else {
        CanonicalizeKeepsSlashes(s[1..]);
      }
    }
  }

  // ---------------------------------------------------------------- normalizeMethod

  // UPPER(trim(m)), or None when there is no verb to compare.
  function NormalizeMethod(m: Option<string>): (r: Option<string>)
    ensures r.Some? ==> r.value != ""
  {
    match m
    case None => None
    case Some(s) => if Trim(s) == "" then None else Some(Upper(Trim(s)))
  }

  // Whatever its text, a parameter becomes `{_}`.
  lemma ParameterIsBlanked(text: string, rest: string)
    requires text != "" && forall i :: 0 <= i < |text| ==> text[i] != '/' && text[i] != '}'
    ensures Canonicalize("{" + text + "}" + rest) == "{_}" + Canonicalize(rest)
  {
    var s := "{" + text + "}" + rest;
    assert s[1..] == text + ("}" + rest);
    RunIsText(text, "}" + rest);
    assert ParameterAtHead(s) && s[2 + |text|..] == rest;
    hide Canonicalize, Run;
    CanonicalizeStep(s);
  }

  lemma {:induction false} RunIsText(text: string, rest: string)
    requires forall i :: 0 <= i < |text| ==> !Stops(text[i])
    requires rest != "" && Stops(rest[0])
    ensures Run(text + rest) == |text|
  {
    if text == "" {
      assert text + rest == rest;
    } else {
      RunIsText(text[1..], rest);
      assert (text + rest)[1..] == text[1..] + rest;
    }
  }

  // ---------------------------------------------------------------- stripBasePath

  // The base path without one trailing slash; "" when no strip can apply.
  function NormalizedBase(basePath: Option<string>): (bp: string) {
    match basePath
    case None => ""
    case Some(b) => if b != "" && b[|b| - 1] == '/' then b[..|b| - 1] else b
  }

  function StripBasePath(connPath: string, basePath: Option<string>): (r: Option<string>)
    ensures r.Some? <==> NormalizedBase(basePath) != "" && NormalizedBase(basePath) <= connPath
                         && (|connPath| > |NormalizedBase(basePath)| ==> connPath[|NormalizedBase(basePath)|] == '/')
    ensures r.Some? ==> r.value != "" && r.value[0] == '/'
                        && (connPath == NormalizedBase(basePath) + r.value
                            || (connPath == NormalizedBase(basePath) && r.value == "/"))
  {
    var bp := NormalizedBase(basePath);
    if bp == "" then None
    else if connPath == bp then Some("/")
    else if bp + "/" <= connPath then Some(connPath[|bp|..])
    else None
  }

  // ---------------------------------------------------------------- canonicalProtocol

  const CANONICAL_PROTOCOLS: set<string> :=
    {"rest", "grpc", "events", "db", "internal", "sdk", "k8s", "tf", "helm", "import", "other"}

  const PROTOCOL_ALIASES: map<string, string> :=
    map["kafka" := "events", "rabbitmq" := "events", "nats" := "events", "sqs" := "events",
        "pubsub" := "events", "sse" := "events",
        "postgres" := "db", "postgresql" := "db", "mysql" := "db", "mongodb" := "db", "redis" := "db", "sql" := "db",
        "graphql" := "rest", "http" := "rest"]

  function CanonicalProtocol(raw: string): string {
    BucketOf(Trim(Lower(raw)))
  }

  function BucketOf(token: string): string {
    if token != "other" && token in CANONICAL_PROTOCOLS then token
    else if token in PROTOCOL_ALIASES then PROTOCOL_ALIASES[token]
    else "other"
  }

  // Which bucket a token, in lower case and without surrounding space, falls into: messaging, stores and HTTP have
  // aliases, seven buckets only their own name, and everything else is "other".
  lemma ProtocolBuckets(raw: string, token: string)
    requires IsTrimmed(Lower(raw), token)
    ensures var p := CanonicalProtocol(raw);
            && (p == "events" <==> token in {"events", "kafka", "rabbitmq", "nats", "sqs", "pubsub", "sse"})
            && (p == "db" <==> token in {"db", "postgres", "postgresql", "mysql", "mongodb", "redis", "sql"})
            && (p == "rest" <==> token in {"rest", "graphql", "http"})
            && (p == "grpc" <==> token == "grpc") && (p == "internal" <==> token == "internal")
            && (p == "sdk" <==> token == "sdk") && (p == "k8s" <==> token == "k8s") && (p == "tf" <==> token == "tf")
            && (p == "helm" <==> token == "helm") && (p == "import" <==> token == "import")
            && p in {"events", "db", "rest", "grpc", "internal", "sdk", "k8s", "tf", "helm", "import", "other"}
  {
    TrimIs(Lower(raw));
    TrimmedIsOne(Lower(raw), token, Trim(Lower(raw)));
    hide IsTrimmed, Trim, Lower, BucketOf;
    AliasedBuckets(token);
    PlainBuckets(token);
    BucketInRange(token);
  }

  lemma AliasedBuckets(token: string)
    ensures BucketOf(token) == "events" <==> token in {"events", "kafka", "rabbitmq", "nats", "sqs", "pubsub", "sse"}
    ensures BucketOf(token) == "db" <==> token in {"db", "postgres", "postgresql", "mysql", "mongodb", "redis", "sql"}
    ensures BucketOf(token) == "rest" <==> token in {"rest", "graphql", "http"}
  {
  }

  lemma PlainBuckets(token: string)
    ensures BucketOf(token) == "grpc" <==> token == "grpc"
    ensures BucketOf(token) == "internal" <==> token == "internal"
    ensures BucketOf(token) == "sdk" <==> token == "sdk"
    ensures BucketOf(token) == "k8s" <==> token == "k8s"
    ensures BucketOf(token) == "tf" <==> token == "tf"
    ensures BucketOf(token) == "helm" <==> token == "helm"
    ensures BucketOf(token) == "import" <==> token == "import"
  {
  }

  lemma BucketInRange(token: string)
    ensures BucketOf(token)
        in {"events", "db", "rest", "grpc", "internal", "sdk", "k8s", "tf", "helm", "import", "other"}
  {
  }

  // A bucket is its own bucket.
  lemma CanonicalProtocolIsIdempotent(raw: string)
    ensures CanonicalProtocol(CanonicalProtocol(raw)) == CanonicalProtocol(raw)
  {
    var p := CanonicalProtocol(raw);
    assert p in CANONICAL_PROTOCOLS;
    BucketIsPlain(p);
  }

  lemma BucketIsPlain(p: string)
    requires p in CANONICAL_PROTOCOLS
    ensures Lower(p) == p && Trim(p) == p
  {
    assert forall i :: 0 <= i < |p| ==> !IsSpace(p[i]) && !('A' <= p[i] <= 'Z');
    assert Lower(p) == p;
    assert TrimStart(p) == p && TrimEnd(p) == p;
  }
}
