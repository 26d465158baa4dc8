/**
 * The `history` command: the request target it builds for the "On This Day"
 * feed of the encyclopedia's REST API, what it does with the reply, and the
 * order in which it shows the decoded events: the reverse of the order in
 * which they were received.
 */
module History {
  import opened Decimal
  import LangCode
  import Calendar

  datatype Option<T> = None | Some(value: T)

  /** A signed 32-bit integer, the type of an event's year in the decoded reply. */
  newtype Int32 = x: int | -0x8000_0000 <= x < 0x8000_0000

  /** One historical event of the feed. */
  datatype Event = Event(year: Int32, text: string)

  /** The decoded reply: the feed's events, in the order it sent them. */
  datatype OnThisDayResponse = OnThisDayResponse(events: seq<Event>)

  // ---------- Request target ---------------------------------------------------

  const UrlScheme: string := "https://"
  const UrlHostAndPath: string := ".wikipedia.org/api/rest_v1/feed/onthisday/events/"

  /** The URL of the events feed for a language, month and day; month and day are written unpadded. */
  function RequestUrl(lang: string, month: nat, day: nat): string {
    UrlScheme + lang + UrlHostAndPath + NatToDecimal(month) + "/" + NatToDecimal(day)
  }

  /** What a request URL names. */
  datatype RequestTarget = RequestTarget(lang: string, month: nat, day: nat)

  /** The index of the first '/' in `s`, if there is one. */
  function FirstSlash(s: string): (k: Option<nat>)
    ensures k.Some? ==> k.value < |s| && s[k.value] == '/' && forall j :: 0 <= j < k.value ==> s[j] != '/'
    ensures k.None? ==> forall j :: 0 <= j < |s| ==> s[j] != '/'
    decreases |s|
  {
    if s == [] then None
    else if s[0] == '/' then Some(0)
    else match FirstSlash(s[1..])
      case None => None
      case Some(k) => Some(k + 1)
  }

  /**
   * Reads a request URL back into its language, month and day, for a
   * two-character language code; anything else is not a request URL.
   */
  function ParseRequestUrl(url: string): Option<RequestTarget> {
    var start := |UrlScheme|;
    var n := start + 2 + |UrlHostAndPath|;
    if |url| < n || url[..start] != UrlScheme || url[start + 2..n] != UrlHostAndPath then None
    else
      var rest := url[n..];
      match FirstSlash(rest)
      case None => None
      case Some(k) =>
        var m, d := rest[..k], rest[k + 1..];
        if IsCanonical(m) && IsCanonical(d) then
          Some(RequestTarget(url[start..start + 2], DecimalValue(m), DecimalValue(d)))
        else None
  }

  /** A printed number has no '/' in it, so the slash after the month is the first one. */
  lemma NoSlashInDecimal(n: nat)
    ensures forall j :: 0 <= j < |NatToDecimal(n)| ==> NatToDecimal(n)[j] != '/'
  {
    var s := NatToDecimal(n);
    forall j | 0 <= j < |s| ensures s[j] != '/' {
      assert IsDigit(s[j]);
    }
  }

  /** The request URL names exactly the language, month and day it was built from. */
  lemma ParseRequestUrlOfRequestUrl(lang: string, month: nat, day: nat)
    requires |lang| == 2
    ensures ParseRequestUrl(RequestUrl(lang, month, day)) == Some(RequestTarget(lang, month, day))
  {
    var url := RequestUrl(lang, month, day);
    var ms, ds := NatToDecimal(month), NatToDecimal(day);
    var n := |UrlScheme| + 2 + |UrlHostAndPath|;
    var rest := url[n..];
    var head := UrlScheme + lang + UrlHostAndPath;
    assert url == head + (ms + "/" + ds);
    assert |head| == n;
    assert url[..|UrlScheme|] == UrlScheme;
    assert url[|UrlScheme|..|UrlScheme| + 2] == lang;
    assert url[|UrlScheme| + 2..n] == UrlHostAndPath;
    assert rest == ms + "/" + ds;
    NoSlashInDecimal(month);
    var k := FirstSlash(rest);
    assert rest[|ms|] == '/';
    assert k == Some(|ms|);
    assert rest[..|ms|] == ms;
    assert rest[|ms| + 1..] == ds;
    DecimalValueOfNatToDecimal(month);
    DecimalValueOfNatToDecimal(day);
  }

  /** Two requests for different languages or dates never go to the same URL. */
  lemma RequestUrlInjective(l1: string, m1: nat, d1: nat, l2: string, m2: nat, d2: nat)
    requires |l1| == 2 && |l2| == 2
    requires RequestUrl(l1, m1, d1) == RequestUrl(l2, m2, d2)
    ensures l1 == l2 && m1 == m2 && d1 == d2
  {
    ParseRequestUrlOfRequestUrl(l1, m1, d1);
    ParseRequestUrlOfRequestUrl(l2, m2, d2);
  }

  /** Every code the language validator accepts gives a URL that names that code, lowercased. */
  lemma ValidatedLanguageInUrl(s: string, month: nat, day: nat)
    requires LangCode.ParseLangCode(s).Ok?
    ensures var lang := LangCode.ParseLangCode(s).value;
      ParseRequestUrl(RequestUrl(lang, month, day)) == Some(RequestTarget(LangCode.ToAsciiLowercase(s), month, day))
  {
    LangCode.AcceptedValueIsLowercaseForm(s);
    ParseRequestUrlOfRequestUrl(LangCode.ParseLangCode(s).value, month, day);
  }

  /** The URL for the default language on 14 March ends in ".../events/3/14", with no zero padding. */
  lemma RequestUrlExample()
    ensures RequestUrl("en", 3, 14) == UrlScheme + "en" + UrlHostAndPath + "3/14"
  {
    assert NatToDecimal(3) == "3";
    assert NatToDecimal(14) == NatToDecimal(1) + [DigitChar(4)] == "14";
  }

  // ---------- Display order ----------------------------------------------------

  /** The elements of `s` from last to first. */
  function Reverse<T>(s: seq<T>): (r: seq<T>)
    ensures |r| == |s|
    ensures forall i :: 0 <= i < |s| ==> r[i] == s[|s| - 1 - i]
    decreases |s|
  {
    if s == [] then [] else [s[|s| - 1]] + Reverse(s[..|s| - 1])
  }

  /** Reversing twice gives the sequence back. */
  lemma ReverseReverse<T>(s: seq<T>)
    ensures Reverse(Reverse(s)) == s
  {
  }

  /** Reversing keeps every element, as often as it occurs. */
  lemma {:induction false} ReverseMultiset<T>(s: seq<T>)
    ensures multiset(Reverse(s)) == multiset(s)
    decreases |s|
  {
    if s != [] {
      var p := s[..|s| - 1];
      ReverseMultiset(p);
      assert Reverse(s) == [s[|s| - 1]] + Reverse(p);
      assert s == p + [s[|s| - 1]];
    }
  }

  /** The events in the order the command shows them. */
  function DisplayOrder(resp: OnThisDayResponse): (shown: seq<Event>)
    ensures |shown| == |resp.events|
    ensures forall i :: 0 <= i < |shown| ==> shown[i] == resp.events[|resp.events| - 1 - i]
    ensures multiset(shown) == multiset(resp.events)
  {
    ReverseMultiset(resp.events);
    Reverse(resp.events)
  }

  predicate YearsAscending(events: seq<Event>) {
    forall i, j :: 0 <= i < j < |events| ==> events[i].year <= events[j].year
  }

  predicate YearsDescending(events: seq<Event>) {
    forall i, j :: 0 <= i < j < |events| ==> events[i].year >= events[j].year
  }

  /**
   * If the events are received in ascending order of year (an assumption
   * about the feed, which the program does not check), they are shown most
   * recent first.
   */
  lemma DisplayIsMostRecentFirst(resp: OnThisDayResponse)
    requires YearsAscending(resp.events)
    ensures YearsDescending(DisplayOrder(resp))
  {
    var shown, n := DisplayOrder(resp), |resp.events|;
    forall i, j | 0 <= i < j < n ensures shown[i].year >= shown[j].year {
      assert shown[i] == resp.events[n - 1 - i] && shown[j] == resp.events[n - 1 - j];
    }
  }

  /** Events of 1990 and 2005, received in that order, are shown 2005 first. */
  lemma DisplayOrderExample()
    ensures DisplayOrder(OnThisDayResponse([Event(1990, "A"), Event(2005, "B")]))
      == [Event(2005, "B"), Event(1990, "A")]
  {
  }

  // ---------- The command ------------------------------------------------------

  /** What the HTTP exchange for the request URL produced; `body` is `None` when the JSON did not decode. */
  datatype HttpReply = TransportFailure | Reply(status: nat, body: Option<OnThisDayResponse>)

  /** The statuses the HTTP client turns into errors: client and server errors. */
  predicate IsErrorStatus(status: nat) {
    400 <= status <= 599
  }

  /** Either the events shown, in display order, or the failed stage's context message. */
  datatype Outcome = Shown(events: seq<Event>) | Failed(context: string)

  const NetworkErrorContext: string := "Network error contacting Wikipedia"
  const ErrorStatusContext: string := "Wikipedia returned an error status"
  const InvalidJsonContext: string := "Invalid JSON returned by Wikipedia"

  /** The context message of the first stage that failed. */
  function FailureContext(reply: HttpReply): (c: string)
    ensures c == NetworkErrorContext <==> reply.TransportFailure?
    ensures c == ErrorStatusContext <==> reply.Reply? && IsErrorStatus(reply.status)
    ensures c == InvalidJsonContext <==> reply.Reply? && !IsErrorStatus(reply.status)
  {
    if reply.TransportFailure? then NetworkErrorContext
    else if IsErrorStatus(reply.status) then ErrorStatusContext
    else InvalidJsonContext
  }

  /**
   * The history command for a language code and today's local date, with
   * the HTTP exchange given as `fetch`: one request to the events URL for
   * today's month and day, a context message for each stage that can fail,
   * and the decoded events in reverse order.
   */
  function ShowOnThisDay(lang: string, today: Calendar.Date, fetch: string -> HttpReply): (r: Outcome)
    requires Calendar.ValidDate(today)
    ensures var reply := fetch(RequestUrl(lang, today.month, today.day));
      r.Shown? <==> reply.Reply? && !IsErrorStatus(reply.status) && reply.body.Some?
    ensures var reply := fetch(RequestUrl(lang, today.month, today.day));
      r.Shown? ==> r.events == DisplayOrder(reply.body.value)
    ensures var reply := fetch(RequestUrl(lang, today.month, today.day));
      r.Failed? ==> r.context == FailureContext(reply)
  {
    var url := RequestUrl(lang, today.month, today.day);
    match fetch(url)
    case TransportFailure => Failed(NetworkErrorContext)
    case Reply(status, body) =>
      if IsErrorStatus(status) then Failed(ErrorStatusContext)
      else match body
        case None => Failed(InvalidJsonContext)
        case Some(resp) => Shown(DisplayOrder(resp))
  }
}
