/** The access gate (internal/api/middleware/auth.go): the Gin middleware in
    front of every write route. It reads the `Authorization` header, expects
    `Bearer <token>`, parses the token and stores the claims in the request
    context under `userClaims`. A refusal writes a JSON reply with the
    business code 401 (HTTP status 200, internal/api/response/response.go). */
module AuthGate {
  import opened Outcomes
  import Tokens

  const CtxUserClaimsKey := "userClaims"
  const CodeUnauthorized := 401

  const MsgNoToken := "请求未携带 token"
  const MsgBadFormat := "Token 格式不正确"
  const MsgInvalidToken := "无效的 token"

  /** The index of the first space, or `|s|` when there is none. */
  function IndexOfSpace(s: string): (i: nat)
    ensures i <= |s|
    ensures i < |s| ==> s[i] == ' '
    ensures forall k :: 0 <= k < i ==> s[k] != ' '
  {
    if s == [] then 0
    else if s[0] == ' ' then 0
    else 1 + IndexOfSpace(s[1..])
  }

  /** `strings.SplitN(s, " ", 2)`: the whole string when it has no space,
      otherwise what is before the first space and everything after it. */
  function SplitN2(s: string): (parts: seq<string>)
    ensures |parts| == 1 || |parts| == 2
    ensures |parts| == 1 <==> ' ' !in s
    ensures |parts| == 1 ==> parts[0] == s
    ensures |parts| == 2 ==> parts[0] + " " + parts[1] == s && ' ' !in parts[0]
  {
    var i := IndexOfSpace(s);
    if i == |s| then [s]
    else
      assert s == s[..i] + " " + s[i + 1..];
      assert forall k :: 0 <= k < |s[..i]| ==> s[..i][k] != ' ';
      [s[..i], s[i + 1..]]
  }

  /** Splitting undoes joining at a first word without spaces. */
  lemma SplitN2Join(a: string, b: string)
    requires ' ' !in a
    ensures SplitN2(a + " " + b) == [a, b]
  {
    var s := a + " " + b;
    assert s[|a|] == ' ';
    assert forall k :: 0 <= k < |a| ==> s[k] == a[k];
    var i := IndexOfSpace(s);
    assert i == |a|;
    assert s[..i] == a && s[i + 1..] == b;
  }

  /** What the middleware decides: refuse with a message (and abort the
      chain, or not), or accept with the token's claims. */
  datatype Decision = Reject(message: string, aborted: bool) | Accept(claims: Tokens.Claims)

  /** The middleware as written. A missing header is answered with 401 but
      the chain is NOT aborted. */
  function Gate(header: string, s: Tokens.Signer, now: int): (d: Decision)
    ensures (d.Reject? && !d.aborted) <==> header == ""
    ensures d.Reject? ==> d.message == MsgNoToken || d.message == MsgBadFormat || d.message == MsgInvalidToken
    ensures d.Accept? ==> Tokens.ParseToken(s, SplitN2(header)[|SplitN2(header)| - 1], now) == Tokens.Claimed(d.claims)
  {
    if header == "" then Reject(MsgNoToken, false)
    else
      var parts := SplitN2(header);
      if !(|parts| == 2 && parts[0] == "Bearer") then Reject(MsgBadFormat, true)
      else match Tokens.ParseToken(s, parts[1], now)
        case Refused(_) => Reject(MsgInvalidToken, true)
        case Claimed(c) => Accept(c)
  }

  /** The gate accepts exactly `Bearer ` followed by a token the library
      accepts, and then hands on that token's claims. */
  lemma GateAcceptsIff(header: string, s: Tokens.Signer, now: int)
    ensures Gate(header, s, now).Accept? <==>
              |header| >= 7 && header[..7] == "Bearer " && Tokens.ParseToken(s, header[7..], now).Claimed?
    ensures Gate(header, s, now).Accept? ==>
              Gate(header, s, now).claims == Tokens.ParseToken(s, header[7..], now).claims
  {
    if |header| >= 7 && header[..7] == "Bearer " {
      assert header == "Bearer" + " " + header[7..];
      SplitN2Join("Bearer", header[7..]);
    }
  }

  /** Every refusal of a non-empty header aborts the chain, and the three
      refusals are told apart only by their message. */
  lemma GateRejections(header: string, s: Tokens.Signer, now: int)
    ensures header == "" ==> Gate(header, s, now) == Reject(MsgNoToken, false)
    ensures header != "" && !(|header| >= 7 && header[..7] == "Bearer ") ==>
              Gate(header, s, now) == Reject(MsgBadFormat, true)
    ensures |header| >= 7 && header[..7] == "Bearer " && Tokens.ParseToken(s, header[7..], now).Refused? ==>
              Gate(header, s, now) == Reject(MsgInvalidToken, true)
  {
    GateAcceptsIff(header, s, now);
    if |header| >= 7 && header[..7] == "Bearer " {
      assert header == "Bearer" + " " + header[7..];
      SplitN2Join("Bearer", header[7..]);
    }
  }

  /** The scheme is matched exactly: a lower-case `bearer` is a format error,
      and so is the bare word `Bearer` with no token. */
  lemma SchemeIsCaseSensitive(token: string, s: Tokens.Signer, now: int)
    ensures Gate("bearer " + token, s, now) == Reject(MsgBadFormat, true)
    ensures Gate("Bearer", s, now) == Reject(MsgBadFormat, true)
  {
    GateRejections("bearer " + token, s, now);
    assert ("bearer " + token)[..7] == "bearer ";
    GateRejections("Bearer", s, now);
  }

  /** The token handed to the parser is everything after the first space,
      further spaces included; `Bearer ` alone passes the format check and
      hands the empty token to the parser. */
  lemma TokenIsRest(token: string, s: Tokens.Signer, now: int)
    ensures Gate("Bearer " + token, s, now) ==
              match Tokens.ParseToken(s, token, now)
              case Refused(_) => Reject(MsgInvalidToken, true)
              case Claimed(c) => Accept(c)
    ensures Gate("Bearer ", s, now) != Reject(MsgBadFormat, true)
  {
    assert "Bearer " + token == "Bearer" + " " + token;
    SplitN2Join("Bearer", token);
    assert "Bearer " == "Bearer" + " " + "";
    SplitN2Join("Bearer", "");
  }

  // The Gin request context, as far as the gate touches it.

  /** A reply written to the client: the business code and the message. */
  datatype Reply = Reply(code: int, message: string)

  /** `claims` is the value under `userClaims`, `replies` what was written,
      `aborted` whether `c.Abort()` was called. */
  datatype Context = Context(claims: Option<Tokens.Claims>, replies: seq<Reply>, aborted: bool)

  const Incoming := Context(None, [], false)

  /** The effect of one decision on the context. */
  function Apply(d: Decision, ctx: Context): (r: Context)
    ensures d.Reject? ==> r.claims == ctx.claims && r.replies == ctx.replies + [Reply(CodeUnauthorized, d.message)]
    ensures d.Reject? ==> r.aborted == (ctx.aborted || d.aborted)
    ensures d.Accept? ==> r == ctx.(claims := Some(d.claims))
  {
    match d
    case Reject(m, abort) => Context(ctx.claims, ctx.replies + [Reply(CodeUnauthorized, m)], ctx.aborted || abort)
    case Accept(c) => ctx.(claims := Some(c))
  }

  /** Gin runs the next handler unless the chain was aborted. */
  predicate HandlerRuns(ctx: Context) {
    !ctx.aborted
  }

  /** As written, a request without the header reaches the protected handler
      with no claims in the context, after the 401 reply was written. The
      handler's type assertion on the missing claims then fails
      (internal/api/handler/post.go:44-45). */
  lemma EmptyHeaderReachesHandler(s: Tokens.Signer, now: int)
    ensures var ctx := Apply(Gate("", s, now), Incoming);
      && HandlerRuns(ctx)
      && ctx.claims.None?
      && ctx.replies == [Reply(CodeUnauthorized, MsgNoToken)]
  {
  }

  /** The intended middleware: every refusal aborts. */
  function GateFixed(header: string, s: Tokens.Signer, now: int): (d: Decision)
    ensures d.Reject? ==> d.aborted
    ensures header != "" ==> d == Gate(header, s, now)
    ensures header == "" ==> d == Reject(MsgNoToken, true)
  {
    match Gate(header, s, now)
    case Reject(m, _) => Reject(m, true)
    case Accept(c) => Accept(c)
  }

  /** With the corrected gate, the protected handler runs exactly when the
      claims are in the context, and then they are the token's claims. */
  lemma {:induction false} GateFixedGuardsHandler(header: string, s: Tokens.Signer, now: int)
    ensures var ctx := Apply(GateFixed(header, s, now), Incoming);
      && (HandlerRuns(ctx) <==> ctx.claims.Some?)
      && (HandlerRuns(ctx) <==>
            |header| >= 7 && header[..7] == "Bearer " && Tokens.ParseToken(s, header[7..], now).Claimed?)
      && (HandlerRuns(ctx) ==> ctx.claims.value == Tokens.ParseToken(s, header[7..], now).claims)
  {
    GateAcceptsIff(header, s, now);
  }
}
