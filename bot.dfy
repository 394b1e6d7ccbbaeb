/** The bot's decision logic for one inbound update: classify the message
    text, and for a search combine the dataset fetch, the matcher and the
    formatter into at most one reply. Fetching and sending are I/O: the
    fetcher's answer is a parameter and the reply is the returned outcome. */
module Bot {
  import opened Text
  import opened Records
  import opened Matcher
  import opened Formatter

  /** An inbound message. `chatId` is `None` when `message['chat']['id']`
      is not there; `text` is the `text` key as `message.get` sees it. */
  datatype Message = Message(chatId: Option<int>, text: Field)

  /** An inbound update; `message` is `None` when the key is absent. */
  datatype Update = Update(message: Option<Message>)

  /** One outbound message; `markdown` is true when it is sent with
      Markdown parse mode. */
  datatype Reply = Reply(chatId: int, text: string, markdown: bool)

  /** What handling one update comes to: nothing sent, exactly one reply,
      or an exception escaping the handler before anything is sent. */
  datatype Outcome = Silent | Replied(reply: Reply) | Raised

  /** What the trimmed text of a message asks for. */
  datatype Command = Ignore | ShowWelcome | ShowHelp | SearchFor(query: string)

  const WelcomeText: string :=
    "\U{1F697} Welcome to Vehicle Info Bot!\n\nUse /info to learn how to search for vehicles."

  const HelpText: string :=
    "\U{1F697} *Vehicle Info Bot*\n\n"
    + "*Usage:*\n"
    + "\U{2022} Send a vehicle ID (e.g. 400)\n"
    + "\U{2022} Send a vehicle name (e.g. Landstalker) \n"
    + "\U{2022} Send a hex value (e.g. 190)\n\n"
    + "*Examples:*\n"
    + "`400` - Search by ID\n"
    + "`Landstalker` - Search by name\n"
    + "`190` - Search by hex\n\n"
    + "The bot will return vehicle information including ID, hex, name, model, and GXT."

  const FetchErrorText: string :=
    "\U{26A0}\U{FE0F} Error occurred while fetching vehicle data. Please try again later."

  const NotFoundPrefix: string := "\U{274C} No vehicle found for: \""
  const NotFoundSuffix: string := "\"\n\nTry searching by ID, name, or hex value."

  /** The reply when no record matches; the query is quoted inside it. */
  function NotFoundText(query: string): string {
    NotFoundPrefix + query + NotFoundSuffix
  }

  /** The two exact command literals, then any other non-empty text as a query. */
  function Classify(text: string): (c: Command)
    ensures c == Ignore <==> text == ""
    ensures c == ShowWelcome <==> text == "/start"
    ensures c == ShowHelp <==> text == "/info"
    ensures c.SearchFor? ==> c.query == text
  {
    if text == "" then Ignore
    else if text == "/start" then ShowWelcome
    else if text == "/info" then ShowHelp
    else SearchFor(text)
  }

  /** `handle_vehicle_search` given what the fetch returned: `None` for a
      failed fetch. A null or empty dataset is reported as a fetch error. */
  function HandleVehicleSearch(chatId: int, query: string, fetched: Option<seq<Record>>): (o: Outcome)
    ensures o != Silent
    ensures o.Replied? ==> o.reply.chatId == chatId
    ensures o.Replied? && o.reply.markdown ==> fetched.Some? && Search(fetched.value, Strip(query)).Found?
    ensures o == Raised ==> fetched.Some? && fetched.value != [] && Search(fetched.value, Strip(query)) == SearchError
  {
    if fetched.None? || fetched.value == [] then Replied(Reply(chatId, FetchErrorText, false))
    else match Search(fetched.value, Strip(query))
      case Found(v) => Replied(Reply(chatId, VehicleInfo(v), true))
      case NotFound => Replied(Reply(chatId, NotFoundText(query), false))
      case SearchError => Raised
  }

  /** What the start of `handle_update` makes of an update: no message,
      a lookup that raises (no chat id, or a text that is not a string),
      or the chat id with the stripped text. */
  datatype Inbound = NoMessage | Malformed | Text(chatId: int, text: string)

  function Receive(u: Update): (r: Inbound)
    ensures r == NoMessage <==> u.message.None?
    ensures r == Malformed <==>
      && u.message.Some?
      && (u.message.value.chatId.None? || !(u.message.value.text.Missing? || u.message.value.text.Str?))
    ensures r.Text? ==> u.message.Some? && u.message.value.chatId == Some(r.chatId)
    ensures r.Text? && u.message.value.text.Str? ==> r.text == Strip(u.message.value.text.s)
    ensures r.Text? && u.message.value.text.Missing? ==> r.text == ""
  {
    if u.message.None? then NoMessage
    else
      var m := u.message.value;
      if m.chatId.None? then Malformed
      else match m.text
        case Missing => Text(m.chatId.value, "")
        case Str(s) => Text(m.chatId.value, Strip(s))
        case _ => Malformed
  }

  /** The branch on the stripped text of a message from chat `chatId`. */
  function Respond(chatId: int, text: string, fetched: Option<seq<Record>>): (o: Outcome)
    ensures o == Silent <==> text == ""
    ensures o.Replied? ==> o.reply.chatId == chatId
  {
    match Classify(text)
    case Ignore => Silent
    case ShowWelcome => Replied(Reply(chatId, WelcomeText, false))
    case ShowHelp => Replied(Reply(chatId, HelpText, true))
    case SearchFor(q) => HandleVehicleSearch(chatId, q, fetched)
  }

  /** `handle_update`; `fetched` is what the dataset fetch would return if a
      search is made. */
  function HandleUpdate(u: Update, fetched: Option<seq<Record>>): (o: Outcome)
    ensures o.Replied? ==>
      && u.message.Some? && u.message.value.chatId.Some?
      && o.reply.chatId == u.message.value.chatId.value
  {
    match Receive(u)
    case NoMessage => Silent
    case Malformed => Raised
    case Text(chatId, text) => Respond(chatId, text, fetched)
  }

  /** The text of a message from a known chat is absent or is nothing but white space. */
  ghost predicate BlankText(m: Message) {
    && m.chatId.Some?
    && (m.text.Missing? || (m.text.Str? && forall k :: 0 <= k < |m.text.s| ==> IsSpace(m.text.s[k])))
  }

  /** No reply is sent, and nothing raises, exactly when the update has no
      message or the message's text is absent or blank. */
  lemma SilentIff(u: Update, fetched: Option<seq<Record>>)
    ensures HandleUpdate(u, fetched) == Silent
        <==> u.message.None? || BlankText(u.message.value)
  {
    var r := Receive(u);
    if u.message.Some? && u.message.value.text.Str? {
      StripEmptyIff(u.message.value.text.s);
    }
    if r.Text? {
      assert HandleUpdate(u, fetched) == Respond(r.chatId, r.text, fetched);
      if r.text != "" {
        RespondNonEmpty(r.chatId, r.text, fetched);
      }
    }
  }

  /** The handler raises exactly when the chat id is missing, the text is
      present but not a string, or the matcher raises on a search. */
  lemma RaisedIff(u: Update, fetched: Option<seq<Record>>)
    ensures HandleUpdate(u, fetched) == Raised
        <==> || Receive(u) == Malformed
             || (&& Receive(u).Text?
                 && Classify(Receive(u).text).SearchFor?
                 && fetched.Some? && fetched.value != []
                 && Search(fetched.value, Receive(u).text) == SearchError)
  {
    if Receive(u).Text? {
      ReceivedRaisedIff(u, fetched);
    }
  }

  /** For a received text, the handler raises only by way of the matcher. */
  lemma ReceivedRaisedIff(u: Update, fetched: Option<seq<Record>>)
    requires Receive(u).Text?
    ensures HandleUpdate(u, fetched) == Raised
        <==> && Classify(Receive(u).text).SearchFor?
             && fetched.Some? && fetched.value != []
             && Search(fetched.value, Receive(u).text) == SearchError
  {
    var r := Receive(u);
    assert HandleUpdate(u, fetched) == Respond(r.chatId, r.text, fetched);
    ReceivedTextIsStripped(u);
    RespondRaisedIff(r.chatId, r.text, fetched);
  }

  /** The text handed on is already stripped. */
  lemma ReceivedTextIsStripped(u: Update)
    requires Receive(u).Text?
    ensures Strip(Receive(u).text) == Receive(u).text
  {
    if u.message.value.text.Str? {
      StripIdempotent(u.message.value.text.s);
    } else {
      assert Strip("") == "";
    }
  }

  /** On stripped text, responding raises only by way of the matcher. */
  lemma RespondRaisedIff(chatId: int, text: string, fetched: Option<seq<Record>>)
    requires Classify(text).SearchFor? ==> Strip(text) == text
    ensures Respond(chatId, text, fetched) == Raised
        <==> && Classify(text).SearchFor?
             && fetched.Some? && fetched.value != []
             && Search(fetched.value, text) == SearchError
  {
    if Classify(text).SearchFor? {
      assert Respond(chatId, text, fetched) == HandleVehicleSearch(chatId, text, fetched);
      if fetched.Some? && fetched.value != [] {
        SearchReply(chatId, text, fetched.value);
      } else {
        FetchErrorIgnoresQuery(chatId, text, text, fetched);
      }
    }
  }

  /** Non-empty text always gets an answer. */
  lemma RespondNonEmpty(chatId: int, text: string, fetched: Option<seq<Record>>)
    requires text != ""
    ensures Respond(chatId, text, fetched) != Silent
  {
    if Classify(text).SearchFor? {
      SearchAlwaysAnswers(chatId, text, fetched);
    }
  }

  /** A search either replies or raises; it is never silent. */
  lemma SearchAlwaysAnswers(chatId: int, query: string, fetched: Option<seq<Record>>)
    ensures HandleVehicleSearch(chatId, query, fetched) != Silent
  {
  }

  /** An update's reply goes back to the chat the message came from. */
  lemma ReplyGoesToSender(u: Update, fetched: Option<seq<Record>>)
    requires HandleUpdate(u, fetched).Replied?
    ensures u.message.Some? && u.message.value.chatId.Some?
    ensures HandleUpdate(u, fetched).reply.chatId == u.message.value.chatId.value
  {
    var chatId := u.message.value.chatId.value;
    assert Receive(u).Text? && Receive(u).chatId == chatId;
    var text := Receive(u).text;
    assert HandleUpdate(u, fetched) == Respond(chatId, text, fetched);
  }

  /** Commands are recognised on the text after stripping, so white space
      around `/start` or `/info` does not matter: a message from chat `c`
      is handled as its stripped text would be. `/start` gets the welcome
      text, `/info` the help text in Markdown, and any other text that is
      not blank is searched for after stripping. */
  lemma RawTextDispatch(c: int, s: string, fetched: Option<seq<Record>>)
    ensures HandleUpdate(Update(Some(Message(Some(c), Str(s)))), fetched)
         == HandleUpdate(Update(Some(Message(Some(c), Str(Strip(s))))), fetched)
    ensures Strip(s) == "/start" ==>
      HandleUpdate(Update(Some(Message(Some(c), Str(s)))), fetched) == Replied(Reply(c, WelcomeText, false))
    ensures Strip(s) == "/info" ==>
      HandleUpdate(Update(Some(Message(Some(c), Str(s)))), fetched) == Replied(Reply(c, HelpText, true))
    ensures Strip(s) != "" && Strip(s) != "/start" && Strip(s) != "/info" ==>
      HandleUpdate(Update(Some(Message(Some(c), Str(s)))), fetched) == HandleVehicleSearch(c, Strip(s), fetched)
  {
    StripIdempotent(s);
  }

  /** A query that reaches the search is non-empty, not a command, and has no
      white space at either end; stripping it again changes nothing. */
  lemma SearchQueryIsClean(u: Update)
    requires Receive(u).Text? && Classify(Receive(u).text).SearchFor?
    ensures var q := Classify(Receive(u).text).query;
      q != "" && q != "/start" && q != "/info"
      && !IsSpace(q[0]) && !IsSpace(q[|q| - 1]) && Strip(q) == q
  {
    var s := Receive(u).text;
    assert s != [];
    assert Classify(s).query == s;
    var raw := u.message.value.text.s;
    assert s == Strip(raw);
    StripSpec(raw);
    StripIdempotent(raw);
  }

  /** Two spaces from chat 7 get no reply. */
  lemma BlankExample(fetched: Option<seq<Record>>)
    ensures HandleUpdate(Update(Some(Message(Some(7), Str("  ")))), fetched) == Silent
  {
    var blank := Message(Some(7), Str("  "));
    assert BlankText(blank);
    SilentIff(Update(Some(blank)), fetched);
  }

  /** A failed fetch or an empty dataset gives the fetch-error text,
      whatever the query. */
  lemma FetchErrorIgnoresQuery(chatId: int, q1: string, q2: string, fetched: Option<seq<Record>>)
    requires fetched.None? || fetched.value == []
    ensures HandleVehicleSearch(chatId, q1, fetched) == HandleVehicleSearch(chatId, q2, fetched)
    ensures HandleVehicleSearch(chatId, q1, fetched) == Replied(Reply(chatId, FetchErrorText, false))
  {
  }

  /** With a non-empty dataset the reply is the formatted record the search
      found, which is one of the dataset's records, or the not-found text;
      the search raises only when the matcher does. */
  lemma SearchReply(chatId: int, query: string, vehicles: seq<Record>)
    requires vehicles != [] && Strip(query) == query
    ensures Search(vehicles, query).Found? ==>
      && Search(vehicles, query).vehicle in vehicles
      && HandleVehicleSearch(chatId, query, Some(vehicles))
         == Replied(Reply(chatId, VehicleInfo(Search(vehicles, query).vehicle), true))
    ensures HandleVehicleSearch(chatId, query, Some(vehicles)) == Replied(Reply(chatId, NotFoundText(query), false))
        <==> forall j :: 0 <= j < |vehicles| ==> Probe(vehicles[j], query) == Miss
    ensures HandleVehicleSearch(chatId, query, Some(vehicles)) == Raised
        <==> Search(vehicles, query) == SearchError
  {
    SearchNotFoundIff(vehicles, query);
    var res := Search(vehicles, query);
    var out := HandleVehicleSearch(chatId, query, Some(vehicles));
    match res
    case Found(v) =>
      assert out == Replied(Reply(chatId, VehicleInfo(v), true));
    case NotFound =>
      assert out == Replied(Reply(chatId, NotFoundText(query), false));
    case SearchError =>
      assert out == Raised;
  }

  /** The not-found text and a vehicle block never coincide: they begin
      with different characters. */
  lemma NotFoundDiffersFromInfo(query: string, v: Record)
    ensures NotFoundText(query) != VehicleInfo(v)
  {
    assert NotFoundText(query)[0] == '\U{274C}';
    assert VehicleInfo(v)[0] == '\U{1F697}';
  }

  /** The not-found reply quotes the query it was given. */
  lemma NotFoundQuotesQuery(query: string)
    ensures Contains(NotFoundText(query), query)
    ensures Contains(NotFoundText(query), "\"" + query + "\"")
  {
    var t := NotFoundText(query);
    var n := |NotFoundPrefix|;
    assert t[n..n + |query|] == query;
    ContainsAt(t, query, n);
    assert t[n - 1] == NotFoundPrefix[n - 1] == '"';
    assert t[n + |query|] == NotFoundSuffix[0] == '"';
    assert t[n - 1..n - 1 + |query| + 2] == "\"" + query + "\"";
    ContainsAt(t, "\"" + query + "\"", n - 1);
  }
}
