/** Authorization codes (sections 4.1.2 and 4.1.3 of RFC 6749) and passkey challenges:
    each is good for one success. */
module Grants {
  import opened Frames

  const CHALLENGE_LIFETIME: real := 600.0

  /** What an account's name asks the mock to do. */
  datatype Scenario =
    | Plain | ExpiredCode | CodeUsed | Cancel | NetworkDrop | TokenRefused | EmptyConsoles | Consoles500

  type ScenarioOf = string -> Scenario

  datatype Code = Code(account: string, redirectUri: string, expires: real, used: bool)
  datatype Challenge = Challenge(kind: string, subject: string, time: real)

  datatype State = State(codes: map<string, Code>, challenges: map<string, Challenge>)

  datatype Reason = UnknownCode | AlreadyUsed | Expired | RedirectDiffers

  datatype Event =
    | Issue(code: string, account: string, uri: string, now: real)
    | Exchange(code: string, redirect: Option<string>, now: real)
    | Open(challenge: string, kind: string, subject: string, now: real)
    | Take(challenge: string, kind: string)

  datatype Reply =
    | Done
    | Rejected(reason: Reason)
    | Dropped
    | Granted(account: string)
    | Refused
    | Accepted(subject: string)

  datatype Context = Context(scenarioOf: ScenarioOf, lifetime: real)

  // ----- one event -----

  function Expiry(cx: Context, account: string, now: real): real {
    if cx.scenarioOf(account) == ExpiredCode then now - 1.0 else now + cx.lifetime
  }

  function Swept(challenges: map<string, Challenge>, now: real): map<string, Challenge> {
    map c | c in challenges && !(now - challenges[c].time > CHALLENGE_LIFETIME) :: challenges[c]
  }

  function Next(cx: Context, s: State, e: Event): State {
    match e
    case Issue(code, account, uri, now) =>
      s.(codes := s.codes[code := Code(account, uri, Expiry(cx, account, now), cx.scenarioOf(account) == CodeUsed)])
    case Exchange(code, _, _) =>
      if Answer(cx, s, e).Granted? then s.(codes := s.codes[code := s.codes[code].(used := true)]) else s
    case Open(challenge, kind, subject, now) =>
      s.(challenges := Swept(s.challenges, now)[challenge := Challenge(kind, subject, now)])
    case Take(challenge, _) => s.(challenges := s.challenges - {challenge})
  }

  function Answer(cx: Context, s: State, e: Event): (r: Reply)
    ensures r.Granted? ==> e.Exchange? && e.code in s.codes
  {
    match e
    case Issue(_, _, _, _) => Done
    case Exchange(code, redirect, now) =>
      if code !in s.codes then Rejected(UnknownCode)
      else if s.codes[code].used then Rejected(AlreadyUsed)
      else if s.codes[code].expires < now then Rejected(Expired)
      else if redirect != Some(s.codes[code].redirectUri) then Rejected(RedirectDiffers)
      else if cx.scenarioOf(s.codes[code].account) == NetworkDrop then Dropped
      else Granted(s.codes[code].account)
    case Open(_, _, _, _) => Done
    case Take(challenge, kind) =>
      if challenge !in s.challenges || s.challenges[challenge].kind != kind then Refused
      else Accepted(s.challenges[challenge].subject)
  }

  function Run(cx: Context, es: seq<Event>): State {
    if es == [] then State(map[], map[]) else Next(cx, Run(cx, es[..|es| - 1]), es[|es| - 1])
  }

  /** The answer to the i-th event of a run. */
  function ReplyAt(cx: Context, es: seq<Event>, i: nat): Reply
    requires i < |es|
  {
    Answer(cx, Run(cx, es[..i]), es[i])
  }

  // ----- codes -----

  /** Random codes never repeat. */
  ghost predicate FreshCodes(es: seq<Event>) {
    forall i, j :: 0 <= i < j < |es| && es[i].Issue? && es[j].Issue? ==> es[i].code != es[j].code
  }

  predicate IssuedAt(es: seq<Event>, k: nat, code: string) {
    k < |es| && es[k].Issue? && es[k].code == code
  }

  /** The exchange asks for this issued code with its redirect_uri, before it expires,
      and the account's scenario lets codes succeed. */
  predicate Matches(cx: Context, issue: Event, exchange: Event)
    requires issue.Issue?
  {
    && exchange.Exchange? && exchange.code == issue.code && exchange.redirect == Some(issue.uri)
    && Expiry(cx, issue.account, issue.now) >= exchange.now
    && cx.scenarioOf(issue.account) != NetworkDrop && cx.scenarioOf(issue.account) != CodeUsed
  }

  ghost predicate Eligible(cx: Context, es: seq<Event>, i: nat) {
    i < |es| && exists k :: 0 <= k < i && es[k].Issue? && Matches(cx, es[k], es[i])
  }

  /** What the store says about a code that was issued. */
  ghost predicate CodeIs(cx: Context, es: seq<Event>, k: nat, code: Code)
    requires k < |es| && es[k].Issue?
  {
    && code.account == es[k].account && code.redirectUri == es[k].uri
    && code.expires == Expiry(cx, es[k].account, es[k].now)
    && (code.used <==> cx.scenarioOf(es[k].account) == CodeUsed || Spent(cx, es, es[k].code))
  }

  ghost predicate Spent(cx: Context, es: seq<Event>, code: string) {
    exists j :: 0 <= j < |es| && es[j].Exchange? && es[j].code == code && Eligible(cx, es, j)
  }

  lemma EligiblePrefix(cx: Context, es: seq<Event>, n: nat, i: nat)
    requires i < n <= |es|
    ensures Eligible(cx, es[..n], i) <==> Eligible(cx, es, i)
  {
    if Eligible(cx, es, i) {
      var k :| 0 <= k < i && es[k].Issue? && Matches(cx, es[k], es[i]);
      assert es[..n][k] == es[k];
    }
  }

  lemma SpentPrefix(cx: Context, es: seq<Event>, n: nat, code: string)
    requires n <= |es|
    ensures Spent(cx, es[..n], code) <==>
            exists j :: 0 <= j < n && es[j].Exchange? && es[j].code == code && Eligible(cx, es, j)
  {
    if Spent(cx, es[..n], code) {
      var j :| 0 <= j < n && es[..n][j].Exchange? && es[..n][j].code == code && Eligible(cx, es[..n], j);
      EligiblePrefix(cx, es, n, j);
      assert es[j] == es[..n][j];
    }
    if j :| 0 <= j < n && es[j].Exchange? && es[j].code == code && Eligible(cx, es, j) {
      EligiblePrefix(cx, es, n, j);
      assert es[j] == es[..n][j];
    }
  }

  /** A code is in the store exactly when it was issued, as it was issued, and it is
      used exactly when it began so or an eligible exchange was made. */
  lemma {:induction false} StoreTells(cx: Context, es: seq<Event>, code: string)
    requires FreshCodes(es)
    ensures code in Run(cx, es).codes <==> exists k: nat :: IssuedAt(es, k, code)
    ensures forall k: nat :: IssuedAt(es, k, code) ==> CodeIs(cx, es, k, Run(cx, es).codes[code])
  {
    if es == [] {
    } else {
      var n := |es| - 1;
      var e := es[n];
      StoreTells(cx, es[..n], code);
      SpentStep(cx, es, code);
      forall k: nat | IssuedAt(es, k, code)
        ensures code in Run(cx, es).codes && CodeIs(cx, es, k, Run(cx, es).codes[code])
      {
        if k < n {
          assert IssuedAt(es[..n], k, code);
          AnswerTells(cx, es, k);
        } else {
          NotSpentYet(cx, es, code);
        }
      }
      if code in Run(cx, es).codes {
        if e.Issue? && e.code == code {
          assert IssuedAt(es, n, code);
        } else {
          var k: nat :| IssuedAt(es[..n], k, code);
          assert IssuedAt(es, k, code);
        }
      }
    }
  }

  lemma SpentStep(cx: Context, es: seq<Event>, code: string)
    requires es != []
    ensures var n := |es| - 1;
            Spent(cx, es, code) <==>
            Spent(cx, es[..n], code) || (es[n].Exchange? && es[n].code == code && Eligible(cx, es, n))
  {
    SpentPrefix(cx, es, |es| - 1, code);
  }

  lemma NotSpentYet(cx: Context, es: seq<Event>, code: string)
    requires es != [] && FreshCodes(es) && IssuedAt(es, |es| - 1, code)
    ensures !Spent(cx, es, code)
  {
  }

  /** The answer to the last event, when the store was right about its code. */
  lemma AnswerTells(cx: Context, es: seq<Event>, k: nat)
    requires es != [] && FreshCodes(es) && k < |es| - 1 && es[k].Issue?
    requires es[k].code in Run(cx, es[..|es| - 1]).codes
    requires CodeIs(cx, es[..|es| - 1], k, Run(cx, es[..|es| - 1]).codes[es[k].code])
    ensures var e := es[|es| - 1];
            e.Exchange? && e.code == es[k].code ==>
              && (Answer(cx, Run(cx, es[..|es| - 1]), e).Granted? <==>
                  Eligible(cx, es, |es| - 1) && !Spent(cx, es[..|es| - 1], e.code))
              && (Eligible(cx, es, |es| - 1) <==> Matches(cx, es[k], e))
  {
    var n := |es| - 1;
    assert es[..n][k] == es[k];
    if Eligible(cx, es, n) {
      var j :| 0 <= j < n && es[j].Issue? && Matches(cx, es[j], es[n]);
      if es[n].Exchange? && es[n].code == es[k].code {
        assert j == k;
      }
    }
  }

  /** Exactly the first eligible exchange of a code is granted. */
  lemma GrantedIff(cx: Context, es: seq<Event>, i: nat)
    requires FreshCodes(es) && i < |es| && es[i].Exchange?
    ensures ReplyAt(cx, es, i).Granted? <==>
            && Eligible(cx, es, i)
            && forall j :: 0 <= j < i && es[j].Exchange? && es[j].code == es[i].code ==> !Eligible(cx, es, j)
  {
    SpentPrefix(cx, es, i, es[i].code);
    if Eligible(cx, es, i) {
      var k :| 0 <= k < i && es[k].Issue? && Matches(cx, es[k], es[i]);
      IssuedAnswer(cx, es, k, i);
    }
    if ReplyAt(cx, es, i).Granted? {
      var k := GrantedTo(cx, es, i);
      IssuedAnswer(cx, es, k, i);
    }
  }

  /** An exchange of the code issued at k. */
  lemma IssuedAnswer(cx: Context, es: seq<Event>, k: nat, i: nat)
    requires FreshCodes(es) && k < i < |es| && es[k].Issue? && es[i].Exchange? && es[i].code == es[k].code
    ensures ReplyAt(cx, es, i).Granted? <==> Eligible(cx, es, i) && !Spent(cx, es[..i], es[i].code)
    ensures Eligible(cx, es, i) <==> Matches(cx, es[k], es[i])
    ensures ReplyAt(cx, es, i).Granted? ==> ReplyAt(cx, es, i) == Granted(es[k].account)
  {
    var upTo := es[..i + 1];
    assert upTo[..i] == es[..i] && upTo[i] == es[i];
    StoreTells(cx, es[..i], es[i].code);
    assert IssuedAt(es[..i], k, es[i].code);
    AnswerTells(cx, upTo, k);
    EligiblePrefix(cx, es, i + 1, i);
  }

  /** A granted code was issued, to the account it is granted to, with the redirect_uri
      asked for, and has not expired. */
  lemma GrantedTo(cx: Context, es: seq<Event>, i: nat) returns (k: nat)
    requires FreshCodes(es) && i < |es| && ReplyAt(cx, es, i).Granted?
    ensures k < i && es[k].Issue? && Matches(cx, es[k], es[i]) && ReplyAt(cx, es, i) == Granted(es[k].account)
  {
    StoreTells(cx, es[..i], es[i].code);
    k :| IssuedAt(es[..i], k, es[i].code);
    IssuedAnswer(cx, es, k, i);
  }

  /** Each code leads to at most one successful exchange. */
  lemma GrantedOnce(cx: Context, es: seq<Event>, i: nat, j: nat)
    requires FreshCodes(es) && i < |es| && j < |es| && es[i].Exchange? && es[j].Exchange? && es[i].code == es[j].code
    requires ReplyAt(cx, es, i).Granted? && ReplyAt(cx, es, j).Granted?
    ensures i == j
  {
    GrantedIff(cx, es, i);
    GrantedIff(cx, es, j);
  }

  /** Some earlier exchange of this code was granted. */
  ghost predicate GrantedBefore(cx: Context, es: seq<Event>, i: nat)
    requires i < |es| && es[i].Exchange?
  {
    exists j: nat :: j < i && es[j].Exchange? && es[j].code == es[i].code && ReplyAt(cx, es, j).Granted?
  }

  lemma {:induction false} FirstEligible(cx: Context, es: seq<Event>, i: nat, j: nat)
    requires FreshCodes(es) && j < i < |es| && es[i].Exchange?
    requires es[j].Exchange? && es[j].code == es[i].code && Eligible(cx, es, j)
    ensures GrantedBefore(cx, es, i)
  {
    GrantedIff(cx, es, j);
    if !ReplyAt(cx, es, j).Granted? {
      var k :| 0 <= k < j && es[k].Exchange? && es[k].code == es[j].code && Eligible(cx, es, k);
      FirstEligible(cx, es, i, k);
    }
  }

  lemma SpentIffGranted(cx: Context, es: seq<Event>, i: nat)
    requires FreshCodes(es) && i < |es| && es[i].Exchange?
    ensures Spent(cx, es[..i], es[i].code) <==> GrantedBefore(cx, es, i)
  {
    SpentPrefix(cx, es, i, es[i].code);
    if Spent(cx, es[..i], es[i].code) {
      var j :| 0 <= j < i && es[j].Exchange? && es[j].code == es[i].code && Eligible(cx, es, j);
      FirstEligible(cx, es, i, j);
    }
    if j: nat :| j < i && es[j].Exchange? && es[j].code == es[i].code && ReplyAt(cx, es, j).Granted? {
      GrantedIff(cx, es, j);
    }
  }

  /** What an exchange of a code issued before is answered, by what was issued and
      granted: a second grant is refused first, then lateness, then the redirect_uri. */
  lemma ExchangeAnswer(cx: Context, es: seq<Event>, k: nat, i: nat)
    requires FreshCodes(es) && k < i < |es| && es[k].Issue? && es[i].Exchange? && es[i].code == es[k].code
    ensures var scenario, reply := cx.scenarioOf(es[k].account), ReplyAt(cx, es, i);
            var late := es[i].now > if scenario == ExpiredCode then es[k].now - 1.0 else es[k].now + cx.lifetime;
            if scenario == CodeUsed || GrantedBefore(cx, es, i) then reply == Rejected(AlreadyUsed)
            else if late then reply == Rejected(Expired)
            else if es[i].redirect != Some(es[k].uri) then reply == Rejected(RedirectDiffers)
            else if scenario == NetworkDrop then reply == Dropped
            else reply == Granted(es[k].account)
  {
    StoreTells(cx, es[..i], es[i].code);
    assert IssuedAt(es[..i], k, es[i].code);
    SpentIffGranted(cx, es, i);
  }

  /** A code that was not issued before is unknown. */
  lemma UnknownIff(cx: Context, es: seq<Event>, i: nat)
    requires FreshCodes(es) && i < |es| && es[i].Exchange?
    ensures ReplyAt(cx, es, i) == Rejected(UnknownCode) <==> forall k: nat :: k < i ==> !IssuedAt(es, k, es[i].code)
  {
    StoreTells(cx, es[..i], es[i].code);
    assert forall k: nat :: k < i ==> (IssuedAt(es[..i], k, es[i].code) <==> IssuedAt(es, k, es[i].code));
  }

  /** A code issued as expired is never granted, whenever it is exchanged; any other that
      the scenario lets pass is granted to its first good exchange up to the end of its
      lifetime and not after. */
  lemma GrantedInTime(cx: Context, es: seq<Event>, k: nat, i: nat)
    requires FreshCodes(es) && k < i < |es| && es[k].Issue? && es[i].Exchange? && es[i].code == es[k].code
    requires es[i].now >= es[k].now
    ensures cx.scenarioOf(es[k].account) == ExpiredCode ==> !ReplyAt(cx, es, i).Granted?
    ensures cx.scenarioOf(es[k].account) !in {ExpiredCode, CodeUsed, NetworkDrop} &&
            es[i].redirect == Some(es[k].uri) && !GrantedBefore(cx, es, i) ==>
              (ReplyAt(cx, es, i).Granted? <==> es[i].now - es[k].now <= cx.lifetime)
  {
    ExchangeAnswer(cx, es, k, i);
  }

  // ----- challenges -----

  ghost predicate FreshChallenges(es: seq<Event>) {
    forall i, j :: 0 <= i < j < |es| && es[i].Open? && es[j].Open? ==> es[i].challenge != es[j].challenge
  }

  /** The challenge opened at k was neither taken, for whatever kind, nor swept. */
  ghost predicate Alive(es: seq<Event>, k: nat, n: nat)
    requires k < n <= |es| && es[k].Open?
  {
    forall j :: k < j < n ==>
      && !(es[j].Take? && es[j].challenge == es[k].challenge)
      && !(es[j].Open? && es[j].now - es[k].now > CHALLENGE_LIFETIME)
  }

  ghost predicate OpenAt(es: seq<Event>, k: nat, challenge: string) {
    k < |es| && es[k].Open? && es[k].challenge == challenge && Alive(es, k, |es|)
  }

  lemma {:induction false} ChallengesTell(cx: Context, es: seq<Event>, challenge: string)
    requires FreshChallenges(es)
    ensures challenge in Run(cx, es).challenges <==> exists k: nat :: OpenAt(es, k, challenge)
    ensures forall k: nat :: OpenAt(es, k, challenge) ==>
              Run(cx, es).challenges[challenge] == Challenge(es[k].kind, es[k].subject, es[k].now)
  {
    if es == [] {
    } else {
      var n := |es| - 1;
      ChallengesTell(cx, es[..n], challenge);
      forall k: nat | OpenAt(es, k, challenge)
        ensures challenge in Run(cx, es).challenges &&
                Run(cx, es).challenges[challenge] == Challenge(es[k].kind, es[k].subject, es[k].now)
      {
        if k < n {
          assert es[..n][k] == es[k];
          assert OpenAt(es[..n], k, challenge);
        }
      }
      if challenge in Run(cx, es).challenges {
        if es[n].Open? && es[n].challenge == challenge {
          assert OpenAt(es, n, challenge);
        } else {
          var k: nat :| OpenAt(es[..n], k, challenge);
          assert es[..n][k] == es[k];
          assert forall j :: k < j < n ==> es[..n][j] == es[j];
          assert OpenAt(es, k, challenge);
        }
      }
    }
  }

  /** A challenge is accepted exactly when it was opened for that kind, and since then
      neither taken nor swept; the answer is the subject it was opened for. */
  lemma AcceptedIff(cx: Context, es: seq<Event>, i: nat)
    requires FreshChallenges(es) && i < |es| && es[i].Take?
    ensures forall subject :: ReplyAt(cx, es, i) == Accepted(subject) <==>
              exists k: nat :: OpenedFor(es, k, i) && es[k].subject == subject
  {
    ChallengesTell(cx, es[..i], es[i].challenge);
    forall k | 0 <= k < i
      ensures OpenAt(es[..i], k, es[i].challenge) && es[k].kind == es[i].kind <==> OpenedFor(es, k, i)
    {
      assert forall j :: 0 <= j < i ==> es[..i][j] == es[j];
    }
    forall subject
      ensures ReplyAt(cx, es, i) == Accepted(subject) <==>
              exists k: nat :: OpenedFor(es, k, i) && es[k].subject == subject
    {
      if ReplyAt(cx, es, i) == Accepted(subject) {
        var k: nat :| OpenAt(es[..i], k, es[i].challenge);
        assert OpenedFor(es, k, i);
      }
      if k: nat :| OpenedFor(es, k, i) && es[k].subject == subject {
        assert OpenAt(es[..i], k, es[i].challenge);
      }
    }
  }

  ghost predicate OpenedFor(es: seq<Event>, k: nat, i: nat) {
    && k < i < |es| && es[i].Take? && es[k].Open? && Alive(es, k, i)
    && es[k].challenge == es[i].challenge && es[k].kind == es[i].kind
  }

  /** Each challenge is accepted at most once. */
  lemma AcceptedOnce(cx: Context, es: seq<Event>, i: nat, j: nat)
    requires FreshChallenges(es) && i < j < |es| && es[i].Take? && es[j].Take? && es[i].challenge == es[j].challenge
    ensures !(ReplyAt(cx, es, i).Accepted? && ReplyAt(cx, es, j).Accepted?)
  {
    AcceptedIff(cx, es, i);
    AcceptedIff(cx, es, j);
  }

  // ----- the server's state -----

  class Server {
    const cx: Context
    var codes: map<string, Code>
    var challenges: map<string, Challenge>

    ghost function View(): State
      reads this
    {
      State(codes, challenges)
    }

    constructor (cx: Context)
      ensures this.cx == cx && View() == Run(cx, [])
    {
      this.cx := cx;
      codes, challenges := map[], map[];
    }

    method IssueCode(code: string, account: string, redirectUri: string, now: real)
      modifies this
      ensures View() == Next(cx, old(View()), Issue(code, account, redirectUri, now))
    {
      var scenario := cx.scenarioOf(account);
      var expires := if scenario == ExpiredCode then now - 1.0 else now + cx.lifetime;
      codes := codes[code := Code(account, redirectUri, expires, scenario == CodeUsed)];
    }

    /** A form field that is missing is None. */
    method ExchangeCode(code: Option<string>, redirectUri: Option<string>, now: real) returns (reply: Reply)
      modifies this
      ensures var e := Exchange(if code.Some? then code.value else "", redirectUri, now);
              reply == Answer(cx, old(View()), e) && View() == Next(cx, old(View()), e)
    {
      var id := if code.Some? then code.value else "";
      if id !in codes {
        return Rejected(UnknownCode);
      }
      var entry := codes[id];
      if entry.used {
        return Rejected(AlreadyUsed);
      } else if entry.expires < now {
        return Rejected(Expired);
      } else if redirectUri != Some(entry.redirectUri) {
        return Rejected(RedirectDiffers);
      } else if cx.scenarioOf(entry.account) != NetworkDrop {
        codes := codes[id := entry.(used := true)];
      }
      if cx.scenarioOf(entry.account) == NetworkDrop {
        return Dropped;
      }
      return Granted(entry.account);
    }

    method NewChallenge(challenge: string, kind: string, subject: string, now: real)
      modifies this
      ensures View() == Next(cx, old(View()), Open(challenge, kind, subject, now))
    {
      var expired := set c | c in challenges && now - challenges[c].time > CHALLENGE_LIFETIME;
      ghost var gone: set<string> := {};
      while expired != {}
        modifies this`challenges
        invariant forall c :: c in challenges <==> c in old(challenges) && c !in gone
        invariant forall c :: c in challenges ==> challenges[c] == old(challenges)[c]
        invariant forall c :: c in expired || c in gone <==>
                    c in old(challenges) && now - old(challenges)[c].time > CHALLENGE_LIFETIME
        decreases expired
      {
        var key :| key in expired;
        challenges := challenges - {key};
        gone := gone + {key};
        expired := expired - {key};
      }
      assert challenges == Swept(old(challenges), now);
      challenges := challenges[challenge := Challenge(kind, subject, now)];
    }

    method TakeChallenge(challenge: string, kind: string) returns (reply: Reply)
      modifies this
      ensures reply == Answer(cx, old(View()), Take(challenge, kind))
      ensures View() == Next(cx, old(View()), Take(challenge, kind))
    {
      var entry := if challenge in challenges then Some(challenges[challenge]) else None;
      challenges := challenges - {challenge};
      if entry == None || entry.value.kind != kind {
        return Refused;
      }
      return Accepted(entry.value.subject);
    }
  }
}
