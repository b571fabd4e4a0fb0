/** The editor state and its message handling (`App::update` in
    src/main.rs, without the batch run itself, which `BatchRun` models).

    The editor holds the script being edited, the interpreter to run it
    with, and the highlighter token. The text buffer is modelled as the text
    before and after a single cursor; an insertion goes in at the cursor
    and leaves the cursor after it. */
module Editor {
  import opened Interpreter
  import Utf8

  /** The command line: the tab width (a Rust `u8`, default 4) and the
      arguments that become the records of every run. */
  datatype Cli = Cli(tabwidth: Utf8.byte, args: seq<string>)

  /** The text buffer: what lies before and after the cursor. */
  datatype Content = Content(before: string, after: string)

  /** The highlighter settings; only the token is modelled. */
  datatype Settings = Settings(token: string)

  datatype App = App(cli: Cli, content: Content, settings: Settings, language: Language)

  /** The messages the editor handles. The source's `Msg::Language` is
      `SelectLanguage` here. */
  datatype Msg = SelectLanguage(lang: Language) | InsertTab | Run

  /** The work an update hands back: nothing, or a batch run of `script`
      under `lang` over `args`. */
  datatype Task = NoTask | Batch(script: string, lang: Language, args: seq<string>)

  datatype Step = Step(app: App, task: Task)

  /** The whole text of the buffer, which the cursor splits into the part
      before it and the part after it. */
  function Text(c: Content): (t: string)
    ensures |t| == |c.before| + |c.after|
    ensures t[..|c.before|] == c.before && t[|c.before|..] == c.after
  {
    c.before + c.after
  }

  /** `Edit::Insert(ch)`: `ch` goes in at the cursor, and the cursor moves
      past it. */
  function Insert(c: Content, ch: char): (r: Content)
    ensures r.after == c.after
    ensures |r.before| == |c.before| + 1 && r.before[..|c.before|] == c.before
    ensures r.before[|c.before|] == ch
  {
    Content(c.before + [ch], c.after)
  }

  /** `n` spaces. */
  function Spaces(n: nat): (s: string)
    ensures |s| == n
    ensures forall i :: 0 <= i < n ==> s[i] == ' '
  {
    if n == 0 then [] else Spaces(n - 1) + [' ']
  }

  /** What one press of Tab inserts for a tab width `w`: `w` spaces, or a
      single tab character when `w` is zero. */
  function TabText(w: Utf8.byte): (s: string)
    ensures w == 0 ==> s == "\t"
    ensures w > 0 ==> |s| == w && forall i :: 0 <= i < |s| ==> s[i] == ' '
  {
    if w == 0 then "\t" else Spaces(w)
  }

  /** The tab handler's loop: insert a space `n` times, one at a time.
      This inserts `n` spaces at the cursor at once. */
  function InsertSpaces(c: Content, n: nat): (r: Content)
    ensures r == Content(c.before + Spaces(n), c.after)
  {
    if n == 0 then c
    else
      var r := InsertSpaces(c, n - 1);
      assert r.before + [' '] == c.before + Spaces(n);
      Insert(r, ' ')
  }

  /** The tab handler as the source writes it: for a nonzero width, a loop
      inserting one space per round; otherwise one tab character. The
      result is the tab text inserted at the cursor. */
  method PressTab(c: Content, w: Utf8.byte) returns (r: Content)
    ensures r == Content(c.before + TabText(w), c.after)
    ensures Text(r) == c.before + TabText(w) + c.after
  {
    if w != 0 {
      r := c;
      for i := 0 to w
        invariant r == Content(c.before + Spaces(i), c.after)
      {
        r := Insert(r, ' ');
        assert c.before + Spaces(i) + [' '] == c.before + Spaces(i + 1);
      }
    } else {
      r := Insert(c, '\t');
    }
  }

  /** The initial state: the given command line, an empty buffer, zsh
      selected and highlighted as zsh. */
  function Init(cli: Cli): (app: App)
    ensures app.language == Zsh && app.settings.token == "zsh"
    ensures Consistent(app)
    ensures Text(app.content) == [] && app.cli == cli
  {
    App(cli, Content([], []), Settings("zsh"), Zsh)
  }

  /** The highlighter token names the selected interpreter. */
  predicate Consistent(app: App) {
    app.settings.token == Name(app.language)
  }

  /** `App::update`: handle one message. */
  function Update(app: App, msg: Msg): (s: Step)
    ensures s.app.cli == app.cli
    ensures msg.Run? <==> s.task.Batch?
    ensures Consistent(app) ==> Consistent(s.app)
  {
    match msg
    case InsertTab =>
      var c := if app.cli.tabwidth == 0 then Insert(app.content, '\t')
               else InsertSpaces(app.content, app.cli.tabwidth);
      Step(app.(content := c), NoTask)
    case Run =>
      Step(app, Batch(Text(app.content), app.language, app.cli.args))
    case SelectLanguage(lang) =>
      Step(app.(language := lang, settings := Settings(Name(lang))), NoTask)
  }

  /** Tab inserts the tab text at the cursor and changes nothing else. */
  lemma InsertTabInsertsTabText(app: App)
    ensures var s := Update(app, InsertTab);
            && s.app.content == Content(app.content.before + TabText(app.cli.tabwidth), app.content.after)
            && s.app.language == app.language && s.app.settings == app.settings
            && s.task == NoTask
  {
  }

  /** The functional update and the looping handler agree on Tab. */
  method UpdateInsertTab(app: App) returns (s: Step)
    ensures s == Update(app, InsertTab)
    ensures |Text(s.app.content)| == |Text(app.content)| + (if app.cli.tabwidth == 0 then 1 else app.cli.tabwidth)
  {
    var c := PressTab(app.content, app.cli.tabwidth);
    InsertTabInsertsTabText(app);
    s := Step(app.(content := c), NoTask);
  }

  /** Selecting an interpreter selects it and retargets the highlighter to
      its name, leaving the buffer and the command line alone; it starts
      no work. */
  lemma SelectLanguageSetsToken(app: App, lang: Language)
    ensures var s := Update(app, SelectLanguage(lang));
            && s.app.language == lang
            && s.app.settings.token == Name(lang)
            && s.app.content == app.content && s.app.cli == app.cli
            && s.task == NoTask
  {
  }

  /** Selecting the same interpreter twice is selecting it once. */
  lemma SelectLanguageIdempotent(app: App, lang: Language)
    ensures Update(Update(app, SelectLanguage(lang)).app, SelectLanguage(lang)).app ==
            Update(app, SelectLanguage(lang)).app
  {
  }

  /** In a consistent state the token determines the interpreter. */
  lemma TokenDeterminesLanguage(a: App, b: App)
    requires Consistent(a) && Consistent(b)
    requires a.settings.token == b.settings.token
    ensures a.language == b.language
  {
    NameInjective(a.language, b.language);
  }

  /** Run leaves the editor as it is and hands back a snapshot of the
      buffer's text, the selected interpreter and the arguments. */
  lemma RunTakesSnapshot(app: App)
    ensures var s := Update(app, Run);
            && s.app == app
            && s.task == Batch(Text(app.content), app.language, app.cli.args)
  {
  }

  /** Handling the messages `msgs` in order. */
  function Replay(app: App, msgs: seq<Msg>): App
    decreases |msgs|
  {
    if msgs == [] then app else Replay(Update(app, msgs[0]).app, msgs[1..])
  }

  /** Whatever the messages, the token keeps naming the selected
      interpreter and the command line never changes. */
  lemma {:induction false} ReplayKeepsConsistent(app: App, msgs: seq<Msg>)
    requires Consistent(app)
    ensures Consistent(Replay(app, msgs))
    ensures Replay(app, msgs).cli == app.cli
    decreases |msgs|
  {
    if msgs != [] {
      ReplayKeepsConsistent(Update(app, msgs[0]).app, msgs[1..]);
    }
  }

  /** Every state the editor reaches from its initial state is consistent. */
  lemma ReachableConsistent(cli: Cli, msgs: seq<Msg>)
    ensures Consistent(Replay(Init(cli), msgs))
  {
    ReplayKeepsConsistent(Init(cli), msgs);
  }

  /** With the default width, Tab inserts four spaces. */
  lemma DefaultTabIsFourSpaces(args: seq<string>)
    ensures TabText(Cli(4, args).tabwidth) == "    "
  {
  }
}
