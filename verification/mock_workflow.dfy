/**
 * `MockWorkflowClient`: answers a voice command from a fixed table whose
 * entries are tried in order, each entry matching when any of its
 * case-insensitive patterns occurs in the text; and treats a notification
 * from a messaging or calendar app as a reason to start a conversation.
 * The simulated delay and the log lines are not part of the model; the
 * locale-formatted time and date texts and the load time, which the table
 * takes when the module is loaded, are an argument.
 */
module MockWorkflow {
  import opened Wrappers
  import opened Text
  import Json
  import opened Messages
  import opened Workflow

  /** A pattern with the `i` flag: a literal word, or `before.*after`. */
  datatype Pattern = Word(word: string) | Spread(before: string, after: string)

  /** A JavaScript line terminator, which `.` does not match. */
  predicate IsLineTerminator(c: char)
  {
    c == '\n' || c == '\r' || c == 0x2028 as char || c == 0x2029 as char
  }

  /** `before` at `i`, `after` at `j`, and no line terminator between them. */
  predicate SpreadAt(s: string, i: int, j: int, before: string, after: string)
  {
    && MatchesAt(s, i, before)
    && i + |before| <= j
    && MatchesAt(s, j, after)
    && forall k | i + |before| <= k < j :: !IsLineTerminator(s[k])
  }

  /** `pattern.test(text)`, with case folded as ASCII lowering (every pattern is lower case). */
  predicate Test(p: Pattern, text: string)
  {
    var s := Lower(text);
    match p
    case Word(w) => Contains(s, w)
    case Spread(before, after) => exists i, j | 0 <= i <= j <= |s| :: SpreadAt(s, i, j, before, after)
  }

  datatype Entry = Entry(patterns: seq<Pattern>, response: WorkflowResponse)

  predicate EntryMatches(e: Entry, text: string)
  {
    exists k | 0 <= k < |e.patterns| :: Test(e.patterns[k], text)
  }

  /** The texts the table computes when it is loaded. */
  datatype LoadClock = LoadClock(time: string, longDate: string, shortDate: string, loadMs: int)

  function Show(kind: ShowContentType, title: Option<string>, text: Option<string>, imageUrl: Option<string>,
                links: seq<ShowLink>, items: seq<ShowListItem>): ShowContent
  {
    ShowContent(kind, title, text, imageUrl, None, None, links, items)
  }

  function Reply(response: string, action: Option<string>, params: Option<Json.Object>, show: ShowContent): WorkflowResponse
  {
    WorkflowResponse(true, Some(response), action, params, None, None, Some(show), None)
  }

  function Item(title: string, subtitle: string): ShowListItem
  {
    ShowListItem(title, Some(subtitle), None)
  }

  const Greeting: WorkflowResponse :=
    Reply("¡Hola! Soy Yarvis, tu asistente. ¿En qué puedo ayudarte hoy? desde el modo mock.", None, None,
          Show(TextContent, None, Some("¡Hola! ¿En qué puedo ayudarte? desde el modo mock."), None, [], []))

  const Farewell: WorkflowResponse :=
    WorkflowResponse(true, Some("¡Hasta luego! Fue un placer ayudarte. Vuelve cuando quieras."), None, None,
                     Some(true), Some("¡Hasta luego!"),
                     Some(Show(TextContent, None, Some("\U{1F44B} ¡Hasta pronto!"), None, [], [])), None)

  const GreetingEntry: Entry :=
    Entry([Word("hola"), Word("buenos días"), Word("buenas tardes"), Word("buenas noches"), Word("hi"), Word("hello")], Greeting)

  const WeatherEntry: Entry :=
    Entry([Word("clima"), Spread("tiempo", "hoy"), Word("weather"), Word("temperatura")],
      Reply("El clima hoy está soleado con una temperatura de 22 grados celsius. Se esperan cielos despejados durante todo el día.",
          None, None,
          Show(Card, Some("Clima Actual"), Some("22°C - Soleado"), Some("https://example.com/weather/sunny.png"), [], [])))

  function TimeEntry(clock: LoadClock): Entry
  {
    Entry([Word("hora"), Word("qué hora"), Word("what time")],
      Reply("Son las " + clock.time + ".", None, None, Show(TextContent, None, Some(clock.time), None, [], [])))
  }

  function DateEntry(clock: LoadClock): Entry
  {
    Entry([Word("fecha"), Word("qué día"), Word("what day"), Word("today")],
      Reply("Hoy es " + clock.longDate + ".", None, None, Show(TextContent, None, Some(clock.shortDate), None, [], [])))
  }

  function ReminderEntry(clock: LoadClock): Entry
  {
    Entry([Word("recuérdame"), Word("recordar"), Word("reminder"), Word("remind me")],
      Reply("De acuerdo, he creado un recordatorio para ti. Te avisaré cuando sea el momento.",
          Some("SET_REMINDER"), Some(map["time" := Json.JNum(clock.loadMs + 3600000)]),
          Show(TextContent, Some("Recordatorio creado"), Some("Te avisaré pronto"), None, [], [])))
  }

  const NewsEntry: Entry :=
    Entry([Word("noticias"), Word("news"), Word("novedades")],
      Reply("Aquí tienes las últimas noticias: La tecnología sigue avanzando con nuevos desarrollos en inteligencia artificial. El mercado tecnológico muestra tendencias positivas.",
          None, None,
          Show(ListContent, Some("Últimas Noticias"), None, None, [],
               [Item("Avances en IA", "Nuevos modelos de lenguaje"), Item("Mercado Tech", "Tendencia positiva"),
                Item("Innovación", "Startups en crecimiento")])))

  const SearchEntry: Entry :=
    Entry([Word("busca"), Word("buscar"), Word("search"), Word("encuentra")],
      Reply("He encontrado varios resultados relacionados con tu búsqueda. Aquí tienes algunos enlaces relevantes.",
          None, None,
          Show(Links, Some("Resultados de búsqueda"), None, None,
               [ShowLink("Wikipedia", "https://wikipedia.org", Some("Enciclopedia libre"), None),
                ShowLink("Documentación", "https://docs.example.com", Some("Guías y tutoriales"), None)], [])))

  const MusicEntry: Entry :=
    Entry([Word("música"), Word("canción"), Word("music"), Word("play"), Word("reproduce"), Word("pon")],
      Reply("Reproduciendo música ahora. Disfruta de la selección.",
          Some("PLAY_MUSIC"), Some(map["playlist" := Json.JStr("favorites")]),
          Show(Card, Some("Reproduciendo"), Some("Tu música favorita"), Some("https://example.com/music/playlist.png"), [], [])))

  const AlarmEntry: Entry :=
    Entry([Word("alarma"), Word("despiértame"), Word("alarm"), Word("wake me")],
      Reply("Alarma configurada. Te despertaré a la hora indicada.", Some("SET_ALARM"), None,
          Show(TextContent, Some("Alarma configurada"), Some("Lista para despertarte"), None, [], [])))

  const JokeEntry: Entry :=
    Entry([Word("chiste"), Word("joke"), Word("algo gracioso"), Word("hazme reír")],
      Reply("¿Por qué los programadores prefieren el frío? Porque odian los bugs del calor. ¡Ba dum tss!", None, None,
          Show(TextContent, None, Some("\U{1F916} ¡Ba dum tss!"), None, [], [])))

  const HelpEntry: Entry :=
    Entry([Word("ayuda"), Word("help"), Word("qué puedes hacer"), Word("comandos")],
      Reply("Puedo ayudarte con varias cosas: consultar el clima, la hora, crear recordatorios, buscar información, reproducir música, configurar alarmas, y mucho más. Solo pregúntame lo que necesites.",
          None, None,
          Show(ListContent, Some("Puedo ayudarte con"), None, None, [],
               [Item("Clima", "Consultar el tiempo"), Item("Hora y fecha", "Información temporal"),
                Item("Recordatorios", "Crear avisos"), Item("Búsquedas", "Encontrar información"),
                Item("Música", "Reproducir canciones")])))

  const FarewellEntry: Entry :=
    Entry([Word("adiós"), Word("adios"), Word("hasta luego"), Word("bye"), Word("chao")], Farewell)

  /** The table, in the order it is searched. */
  function Table(clock: LoadClock): (t: seq<Entry>)
    ensures |t| == 12
  {
    [GreetingEntry, WeatherEntry, TimeEntry(clock), DateEntry(clock), ReminderEntry(clock), NewsEntry,
     SearchEntry, MusicEntry, AlarmEntry, JokeEntry, HelpEntry, FarewellEntry]
  }

  /** The answer when no entry matches. */
  const Default: WorkflowResponse :=
    Reply("Entendido. Estoy procesando tu solicitud. ¿Hay algo más en lo que pueda ayudarte?", None, None,
          Show(TextContent, None, Some("¿Algo más en lo que pueda ayudarte?"), None, [], []))

  /** The first entry, from `from` on, that matches the text. */
  function FirstMatch(table: seq<Entry>, text: string, from: nat): (r: Option<nat>)
    ensures r.Some? ==> from <= r.value < |table| && EntryMatches(table[r.value], text)
    ensures r.Some? ==> forall k | from <= k < r.value :: !EntryMatches(table[k], text)
    ensures r.None? <==> forall k | from <= k < |table| :: !EntryMatches(table[k], text)
    decreases |table| - from
  {
    if from >= |table| then None
    else if EntryMatches(table[from], text) then Some(from)
    else FirstMatch(table, text, from + 1)
  }

  /**
   * The loop of `sendVoiceCommand` over any table: the response of the
   * first entry with a matching pattern, else the fallback.
   */
  function Answer(table: seq<Entry>, text: string, fallback: WorkflowResponse): (r: WorkflowResponse)
    ensures || (exists k | 0 <= k < |table| :: EntryMatches(table[k], text) && r == table[k].response &&
                  forall j | 0 <= j < k :: !EntryMatches(table[j], text))
            || ((forall k | 0 <= k < |table| :: !EntryMatches(table[k], text)) && r == fallback)
  {
    match FirstMatch(table, text, 0)
    case Some(k) => table[k].response
    case None => fallback
  }

  /**
   * `sendVoiceCommand`: a copy of the response of the first entry of the
   * table with a matching pattern, else of the default. The session,
   * context and environment flag play no part.
   */
  function SendVoiceCommand(clock: LoadClock, text: string): (r: WorkflowResponse)
    ensures r.success
  {
    TableSucceeds(clock);
    Answer(Table(clock), text, Default)
  }

  /** Every canned response reports success. */
  lemma TableSucceeds(clock: LoadClock)
    ensures forall k | 0 <= k < |Table(clock)| :: Table(clock)[k].response.success
  {
    var t := Table(clock);
    forall k | 0 <= k < |t|
      ensures t[k].response.success
    {
      if k != 11 {
        assert t[k].response.success;
      }
    }
  }

  /** "chiste" contains "hi", and the greeting entry comes before the joke entry. */
  lemma JokeRequestGetsGreeting(clock: LoadClock)
    ensures SendVoiceCommand(clock, "chiste") == Greeting
  {
    var t := Table(clock);
    assert Lower("chiste") == "chiste";
    assert MatchesAt("chiste", 1, "hi");
    assert Test(t[0].patterns[4], "chiste");
    assert FirstMatch(t, "chiste", 0) == Some(0);
  }

  const ImportantApps: seq<string> := ["whatsapp", "telegram", "gmail", "calendar"]
  const NotificationPrefix: string := "Tienes una nueva notificación de "
  const StartConversationAction: string := "START_CONVERSATION"

  /** The app name, lowered, contains one of the important apps. */
  predicate IsImportant(app: string)
  {
    ContainsAny(Lower(app), ImportantApps)
  }

  /**
   * `sendNotification`: an important app gets a conversation opener naming
   * the app and the title; any other app a bare success.
   */
  function SendNotification(app: string, title: string): (r: WorkflowResponse)
    ensures r.success
    ensures r.action == Some(StartConversationAction) <==> IsImportant(app)
    ensures IsImportant(app) ==>
              && r.response == Some(NotificationPrefix + app + ": " + title)
              && r.show == Some(Show(Card, Some(app), Some(title), None, [], []))
    ensures !IsImportant(app) ==> r == Acknowledged
  {
    if IsImportant(app) then
      Reply(NotificationPrefix + app + ": " + title, Some(StartConversationAction), None,
            Show(Card, Some(app), Some(title), None, [], []))
    else Acknowledged
  }
}
