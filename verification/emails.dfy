/**
 The transactional emails sent by the cloud functions: how a resolution is
 displayed, which recipients each sender skips, and the strings (subjects,
 market and unsubscribe URLs, first names) it builds. The look-ups of the
 private user and user, `formatPercent`, `formatMoney` and the mail sending
 itself are inputs; each sender returns the email it would send, or `None`.
 */
module Emails {
  import opened Optional
  import opened JsNumbers

  /** The outcomes `toDisplayResolution` has a fixed display for. */
  predicate IsListedOutcome(outcome: string)
  {
    outcome == "YES" || outcome == "NO" || outcome == "CANCEL" || outcome == "MKT"
  }

  /**
   How a resolution is shown: `MULTI` for a multi-answer resolution, the
   outcome itself for `YES`/`NO`, `N/A` for `CANCEL`, the formatted
   probability for a `MKT` resolution, and `#` before any other outcome (an
   answer number).
   */
  function ToDisplayResolution(outcome: string, prob: real, resolutions: Option<map<string, real>>,
                               formatPercent: real -> string): (r: string)
    ensures outcome == "MKT" && resolutions.Some? ==> r == "MULTI"
    ensures outcome == "MKT" && resolutions.None? ==> r == formatPercent(prob)
    ensures outcome == "YES" ==> r == "YES"
    ensures outcome == "NO" ==> r == "NO"
    ensures outcome == "CANCEL" ==> r == "N/A"
    ensures !IsListedOutcome(outcome) ==> r == "#" + outcome
  {
    if outcome == "MKT" && resolutions.Some? then "MULTI"
    else if outcome == "YES" then "YES"
    else if outcome == "NO" then "NO"
    else if outcome == "CANCEL" then "N/A"
    else if outcome == "MKT" then formatPercent(prob)
    else "#" + outcome
  }

  /** Reads an outcome back from its display; the displays of `MKT` are not read. */
  function ParseDisplay(display: string): Option<string>
  {
    if display == "YES" then Some("YES")
    else if display == "NO" then Some("NO")
    else if display == "N/A" then Some("CANCEL")
    else if |display| > 0 && display[0] == '#' then Some(display[1..])
    else None
  }

  /** Every outcome other than `MKT` can be read back from how it is displayed. */
  lemma DisplayRoundTrip(outcome: string, prob: real, resolutions: Option<map<string, real>>,
                         formatPercent: real -> string)
    requires outcome != "MKT"
    ensures ParseDisplay(ToDisplayResolution(outcome, prob, resolutions, formatPercent)) == Some(outcome)
  {
    if !IsListedOutcome(outcome) {
      var d := "#" + outcome;
      assert d[0] == '#' && d[1..] == outcome;
      assert d != "YES" && d != "NO" && d != "N/A" by {
        assert "YES"[0] != '#' && "NO"[0] != '#' && "N/A"[0] != '#';
      }
    }
  }

  /**
   The probability only matters for a `MKT` resolution without a resolutions
   map; in particular a multi-answer resolution shows `MULTI` whatever it is.
   */
  lemma DisplayIgnoresProbability(outcome: string, p1: real, p2: real, resolutions: Option<map<string, real>>,
                                  formatPercent: real -> string)
    requires outcome != "MKT" || resolutions.Some?
    ensures ToDisplayResolution(outcome, p1, resolutions, formatPercent)
         == ToDisplayResolution(outcome, p2, resolutions, formatPercent)
  {
  }

  /** The part of `s` before the first `c`, or all of `s` when it has none (`s.split(c)[0]`). */
  function PrefixBefore(s: string, c: char): (r: string)
    ensures r <= s
    ensures c !in r
    ensures |r| < |s| ==> s[|r|] == c
    decreases |s|
  {
    if |s| == 0 || s[0] == c then [] else [s[0]] + PrefixBefore(s[1..], c)
  }

  /** The three properties of `PrefixBefore` pin its result down. */
  lemma {:induction false} PrefixBeforeUnique(s: string, c: char, x: string)
    requires x <= s && c !in x && (|x| < |s| ==> s[|x|] == c)
    ensures x == PrefixBefore(s, c)
    decreases |s|
  {
    if |s| > 0 && s[0] != c {
      assert |x| > 0 && x[0] == s[0];
      assert x[0] == x[..1][0];
      PrefixBeforeUnique(s[1..], c, x[1..]);
      assert x == [x[0]] + x[1..];
    }
  }

  /** A user's first name: the name up to its first space (`name.split(' ')[0]`). */
  function FirstName(name: string): (r: string)
    ensures r <= name && ' ' !in r
    ensures |r| < |name| ==> name[|r|] == ' '
  {
    PrefixBefore(name, ' ')
  }

  /** The first name of `first` followed by a space and anything else is `first`. */
  lemma FirstNameOfFullName(first: string, rest: string)
    requires ' ' !in first
    ensures FirstName(first + " " + rest) == first
  {
    var s := first + " " + rest;
    assert first <= s;
    assert s[|first|] == ' ';
    PrefixBeforeUnique(s, ' ', first);
  }

  const MarketUrlPrefix: string := "https://manifold.markets/"

  /** The address of a market: the site, the creator's username, then the slug. */
  function MarketUrl(username: string, slug: string): (r: string)
    ensures MarketUrlPrefix <= r
  {
    MarketUrlPrefix + username + "/" + slug
  }

  /** Reads the username and slug back from a market address. */
  function ParseMarketUrl(url: string): Option<(string, string)>
  {
    if |url| < |MarketUrlPrefix| || url[..|MarketUrlPrefix|] != MarketUrlPrefix then None
    else
      var rest := url[|MarketUrlPrefix|..];
      var username := PrefixBefore(rest, '/');
      if |username| == |rest| then None else Some((username, rest[|username| + 1..]))
  }

  /** A market address determines its username and slug when the username has no `/`. */
  lemma MarketUrlRoundTrip(username: string, slug: string)
    requires '/' !in username
    ensures ParseMarketUrl(MarketUrl(username, slug)) == Some((username, slug))
  {
    var url := MarketUrl(username, slug);
    var rest := username + "/" + slug;
    assert url[|MarketUrlPrefix|..] == rest;
    assert username <= rest && rest[|username|] == '/';
    PrefixBeforeUnique(rest, '/', username);
    assert rest[|username| + 1..] == slug;
  }

  /** The cloud-functions project: production or development. */
  function FunctionsProject(isProd: bool): string
  {
    if isProd then "mantic-markets" else "dev-mantic-markets"
  }

  /** The unsubscribe endpoint of the given environment. */
  function UnsubscribeEndpoint(isProd: bool): string
  {
    "https://us-central1-" + FunctionsProject(isProd) + ".cloudfunctions.net/unsubscribe"
  }

  /** The link that unsubscribes `userId` from emails of kind `kind`. */
  function UnsubscribeUrl(isProd: bool, userId: string, kind: string): (r: string)
    ensures UnsubscribeEndpoint(isProd) <= r
    ensures var e := |UnsubscribeEndpoint(isProd)|;
      |r| >= e + 4 + |userId| && r[e..e + 4 + |userId|] == "?id=" + userId
    ensures |r| >= 6 + |kind| && r[|r| - |kind| - 6..] == "&type=" + kind
  {
    UnsubscribeEndpoint(isProd) + "?id=" + userId + "&type=" + kind
  }

  /** Reads the user id and the email kind back from an unsubscribe link of the given environment. */
  function ParseUnsubscribeUrl(isProd: bool, url: string): Option<(string, string)>
  {
    ParseIdAndType(UnsubscribeEndpoint(isProd) + "?id=", url)
  }

  /** After `head`, the text up to the first `&`, then `&type=` and the rest. */
  function ParseIdAndType(head: string, url: string): Option<(string, string)>
  {
    if !(head <= url) then None
    else
      var rest := url[|head|..];
      var userId := PrefixBefore(rest, '&');
      var tail := rest[|userId|..];
      if "&type=" <= tail then Some((userId, tail[6..])) else None
  }

  lemma IdAndTypeRoundTrip(head: string, userId: string, kind: string)
    requires '&' !in userId
    ensures ParseIdAndType(head, head + userId + "&type=" + kind) == Some((userId, kind))
  {
    var url := head + userId + "&type=" + kind;
    var rest := userId + "&type=" + kind;
    assert url == head + rest;
    assert head <= url && url[|head|..] == rest;
    assert userId <= rest && rest[|userId|] == '&';
    PrefixBeforeUnique(rest, '&', userId);
    var tail := rest[|userId|..];
    assert tail == "&type=" + kind;
    assert "&type=" <= tail && tail[6..] == kind;
  }

  /** An unsubscribe link determines whom it unsubscribes and from what, when the id has no `&`. */
  lemma UnsubscribeUrlRoundTrip(isProd: bool, userId: string, kind: string)
    requires '&' !in userId
    ensures ParseUnsubscribeUrl(isProd, UnsubscribeUrl(isProd, userId, kind)) == Some((userId, kind))
  {
    IdAndTypeRoundTrip(UnsubscribeEndpoint(isProd) + "?id=", userId, kind);
  }

  /** The endpoint depends on the environment alone, and differs between the two. */
  lemma UnsubscribeEndpointByEnvironment(isProd: bool, u1: string, u2: string, k1: string, k2: string)
    ensures UnsubscribeEndpoint(true) != UnsubscribeEndpoint(false)
    ensures UnsubscribeEndpoint(isProd) <= UnsubscribeUrl(isProd, u1, k1)
    ensures UnsubscribeEndpoint(isProd) <= UnsubscribeUrl(isProd, u2, k2)
    ensures !(UnsubscribeEndpoint(!isProd) <= UnsubscribeUrl(isProd, u1, k1))
  {
    var p := "https://us-central1-";
    assert UnsubscribeEndpoint(true)[|p|] == 'm';
    assert UnsubscribeEndpoint(false)[|p|] == 'd';
    var url := UnsubscribeUrl(isProd, u1, k1);
    assert url[|p|] == UnsubscribeEndpoint(isProd)[|p|];
  }

  /** A user's email settings. */
  datatype PrivateUser = PrivateUser(
    email: Option<string>,
    unsubscribedFromResolutionEmails: bool,
    unsubscribedFromCommentEmails: bool,
    unsubscribedFromAnswerEmails: bool)

  datatype User = User(id: string, name: string, username: string, avatarUrl: Option<string>)

  datatype Contract = Contract(question: string, slug: string, creatorId: string, creatorUsername: string)

  datatype Comment = Comment(text: string)

  /**
   The fields of a market's answer record a new-answer email shows (the
   answerer's name and avatar and the text); `ResolvePanel.Answer` is another
   projection of the same record.
   */
  datatype Answer = Answer(name: string, avatarUrl: Option<string>, text: string)

  /** The kinds of email a user can unsubscribe from. */
  datatype Subscription = ResolutionEmails | CommentEmails | AnswerEmails

  predicate Unsubscribed(p: PrivateUser, kind: Subscription)
  {
    match kind
    case ResolutionEmails => p.unsubscribedFromResolutionEmails
    case CommentEmails => p.unsubscribedFromCommentEmails
    case AnswerEmails => p.unsubscribedFromAnswerEmails
  }

  /** There is a private user, with a non-empty address, still subscribed to `kind`. */
  predicate Reachable(p: Option<PrivateUser>, kind: Subscription)
  {
    p.Some? && p.value.email.Some? && p.value.email.value != "" && !Unsubscribed(p.value, kind)
  }

  /** The fields each template is filled with. */
  datatype TemplateData =
    | MarketResolved(userId: string, name: string, creatorName: string, question: string,
                     outcome: string, payout: string, url: string)
    | MarketClose(name: string, question: string, pool: string, url: string, userId: string, creatorFee: string)
    | MarketComment(commentorName: string, commentorAvatarUrl: string, comment: string,
                    marketUrl: string, unsubscribeUrl: string)
    | MarketAnswer(name: string, avatarUrl: string, answer: string, marketUrl: string, unsubscribeUrl: string)

  datatype Email = Email(to: string, subject: string, template: string, data: TemplateData, from: Option<string>)

  /** The sender named in the `from` header of comment and answer emails. */
  function FromHeader(name: string): string
  {
    name + " <info@manifold.markets>"
  }

  /**
   `sendMarketResolutionEmail`: skipped without a subscribed private user
   with an address, or without a user; otherwise the subject and template
   show the resolution as `toDisplayResolution` does, using the resolution
   probability when given and the market's probability otherwise.
   */
  function MarketResolutionEmail(
    creator: User, contract: Contract, resolution: string, resolutionProbability: Option<real>,
    resolutions: Option<map<string, real>>, roundedPayout: int,
    privateUser: Option<PrivateUser>, user: Option<User>, marketProbability: real,
    formatPercent: real -> string): (r: Option<Email>)
    ensures r.Some? <==> Reachable(privateUser, ResolutionEmails) && user.Some?
    ensures r.Some? ==>
      var display := ToDisplayResolution(resolution, resolutionProbability.GetOr(marketProbability), resolutions, formatPercent);
      && r.value.to == privateUser.value.email.value
      && r.value.subject == "Resolved " + display + ": " + contract.question
      && r.value.template == "market-resolved"
      && r.value.data.MarketResolved?
      && r.value.data.outcome == display
      && r.value.data.userId == user.value.id
      && r.value.data.payout == IntToString(roundedPayout)
      && r.value.data.url == MarketUrl(creator.username, contract.slug)
  {
    if !Reachable(privateUser, ResolutionEmails) then None
    else if user.None? then None
    else
      var prob := resolutionProbability.GetOr(marketProbability);
      var outcome := ToDisplayResolution(resolution, prob, resolutions, formatPercent);
      Some(Email(
        privateUser.value.email.value,
        "Resolved " + outcome + ": " + contract.question,
        "market-resolved",
        MarketResolved(user.value.id, user.value.name, creator.name, contract.question, outcome,
                       IntToString(roundedPayout), MarketUrl(creator.username, contract.slug)),
        None))
  }

  /**
   `sendMarketCloseEmail`: gated by the resolution-email setting; greets the
   creator by first name and links to the market under their username.
   */
  function MarketCloseEmail(user: User, privateUser: Option<PrivateUser>, contract: Contract,
                            pool: string, creatorFee: string): (r: Option<Email>)
    ensures r.Some? <==> Reachable(privateUser, ResolutionEmails)
    ensures r.Some? ==>
      && r.value.to == privateUser.value.email.value
      && r.value.template == "market-close"
      && r.value.data.MarketClose?
      && r.value.data.name == FirstName(user.name)
      && r.value.data.url == MarketUrl(user.username, contract.slug)
      && r.value.data.userId == user.id
  {
    if !Reachable(privateUser, ResolutionEmails) then None
    else
      Some(Email(
        privateUser.value.email.value,
        "Your market has closed",
        "market-close",
        MarketClose(FirstName(user.name), contract.question, pool,
                    MarketUrl(user.username, contract.slug), user.id, creatorFee),
        None))
  }

  /**
   `sendNewCommentEmail`: gated by the comment-email setting; links to the
   market and to the `market-comment` unsubscribe endpoint of the environment.
   */
  function NewCommentEmail(userId: string, commentCreator: User, comment: Comment, contract: Contract,
                           privateUser: Option<PrivateUser>, isProd: bool): (r: Option<Email>)
    ensures r.Some? <==> Reachable(privateUser, CommentEmails)
    ensures r.Some? ==>
      && r.value.to == privateUser.value.email.value
      && r.value.subject == "Comment on " + contract.question
      && r.value.template == "market-comment"
      && r.value.from == Some(FromHeader(commentCreator.name))
      && r.value.data.MarketComment?
      && r.value.data.marketUrl == MarketUrl(contract.creatorUsername, contract.slug)
      && r.value.data.unsubscribeUrl == UnsubscribeUrl(isProd, userId, "market-comment")
      && r.value.data.commentorAvatarUrl == commentCreator.avatarUrl.GetOr("")
  {
    if !Reachable(privateUser, CommentEmails) then None
    else
      Some(Email(
        privateUser.value.email.value,
        "Comment on " + contract.question,
        "market-comment",
        MarketComment(commentCreator.name, commentCreator.avatarUrl.GetOr(""), comment.text,
                      MarketUrl(contract.creatorUsername, contract.slug),
                      UnsubscribeUrl(isProd, userId, "market-comment")),
        Some(FromHeader(commentCreator.name))))
  }

  /**
   `sendNewAnswerEmail`: sent to the market's creator only, gated by the
   answer-email setting; links to the market and to the `market-answer`
   unsubscribe endpoint of the environment.
   */
  function NewAnswerEmail(answer: Answer, contract: Contract, creatorPrivateUser: Option<PrivateUser>,
                          isProd: bool): (r: Option<Email>)
    ensures r.Some? <==> Reachable(creatorPrivateUser, AnswerEmails)
    ensures r.Some? ==>
      && r.value.to == creatorPrivateUser.value.email.value
      && r.value.subject == "New answer on " + contract.question
      && r.value.template == "market-answer"
      && r.value.from == Some(FromHeader(answer.name))
      && r.value.data.MarketAnswer?
      && r.value.data.marketUrl == MarketUrl(contract.creatorUsername, contract.slug)
      && r.value.data.unsubscribeUrl == UnsubscribeUrl(isProd, contract.creatorId, "market-answer")
  {
    if !Reachable(creatorPrivateUser, AnswerEmails) then None
    else
      Some(Email(
        creatorPrivateUser.value.email.value,
        "New answer on " + contract.question,
        "market-answer",
        MarketAnswer(answer.name, answer.avatarUrl.GetOr(""), answer.text,
                     MarketUrl(contract.creatorUsername, contract.slug),
                     UnsubscribeUrl(isProd, contract.creatorId, "market-answer")),
        Some(FromHeader(answer.name))))
  }

  /**
   Each sender reads only its own unsubscribe setting: changing the other two
   never changes whether it sends.
   */
  lemma EachSenderHasItsOwnSetting(p: PrivateUser, q: PrivateUser, kind: Subscription)
    requires p.email == q.email && Unsubscribed(p, kind) == Unsubscribed(q, kind)
    ensures Reachable(Some(p), kind) == Reachable(Some(q), kind)
  {
  }

  /**
   Unsubscribing from comment emails stops comment emails but neither answer
   nor resolution emails, and likewise for the other two settings.
   */
  lemma UnsubscribingIsSelective(p: PrivateUser, kind: Subscription, other: Subscription)
    requires Reachable(Some(p), kind) && Reachable(Some(p), other) && kind != other
    ensures var q := match kind
        case ResolutionEmails => p.(unsubscribedFromResolutionEmails := true)
        case CommentEmails => p.(unsubscribedFromCommentEmails := true)
        case AnswerEmails => p.(unsubscribedFromAnswerEmails := true);
      !Reachable(Some(q), kind) && Reachable(Some(q), other)
  {
  }

  /** The plain-text welcome email: its recipient, subject and opening greeting. */
  datatype WelcomeEmail = WelcomeEmail(to: string, subject: string, greeting: string)

  /**
   `sendWelcomeEmail`: not gated; sent to the private user's address or to
   the empty address, greeting the user by first name.
   */
  function Welcome(user: User, privateUser: PrivateUser): (r: WelcomeEmail)
    ensures r.to == privateUser.email.GetOr("")
    ensures r.greeting == "Hi " + FirstName(user.name) + ","
  {
    WelcomeEmail(privateUser.email.GetOr(""), "Welcome to Manifold Markets!", "Hi " + FirstName(user.name) + ",")
  }
}
