/** One connection (src/server.c): the session fields, the command handlers and `do_command`. */
module Session {
  import opened CStrings
  import opened Tables
  import opened Delivery
  import opened Post
  import opened Overview
  import opened Reading
  import opened Tokenizer
  import opened CommandReader

  /** What SQLite reads from a text that is not all digits when it is compared with postnum. */
  type Affinity = string -> Option<nat>

  /** The number an article argument stands for in `postnum='...'`. */
  function NumberOf(affinity: Affinity, text: string): Option<nat> {
    if text != [] && AllDigits(text) then Some(DigitsValue(text)) else affinity(text)
  }

  /** `hash` stands for get_sha256_hash_from_str. */
  datatype Config = Config(useAuth: bool, useAcl: bool, tlsMandatory: bool, rules: Rules,
                           hash: (string, string) -> string, affinity: Affinity)

  /** Session fields; `article` is the number selected_article holds as text, `starttls` the
      connector's enable_starttls. */
  datatype Conn = Conn(alive: bool, auth: bool, user: Option<string>, starttls: bool, tls: bool, switchTls: bool,
                       group: Option<string>, article: Option<nat>, foundArticle: bool)

  /** Replies, as far as they are modelled; Other is output whose text is left out, and Gone is a
      connection that dies without one. */
  datatype Reply =
    | Line(code: nat)
    | GroupLine(estimated: nat, first: nat, last: nat, name: string)
    | Numbers(nums: seq<nat>)
    | Text(text: string)
    | OverviewLines(items: set<Item>)
    | Other
    | Gone

  /** What one command may take from outside: a posting, the value of an uninitialised variable, and
      the outcome of a TLS handshake. */
  datatype Io = Io(post: Env, uninitialised: nat, tlsOk: bool)

  predicate AclOn(cfg: Config) {
    cfg.useAuth && cfg.useAcl
  }

  function PolicyOf(cfg: Config, c: Conn): Policy {
    Policy(AclOn(cfg), c.user)
  }

  // ---------- Dispatch ----------

  datatype Command =
    | Quit | AuthinfoUser | AuthinfoPass | ListNewsgroups | ListOverview | ListGroup | List | Xgtitle | Help
    | SelectGroup | Xover | Xhdr | Article | ModeReader | PostArticle | Date | Capabilities | StartTls | Newnews
    | Unknown | AuthRequired

  predicate Starts(line: string, word: string) {
    AtNoCase(line, 0, word)
  }

  /** The chain of comparisons in `do_command`; the order decides. */
  function Classify(line: string, allowed: bool): Command {
    if Starts(line, "quit") then Quit
    else if Starts(line, "authinfo user ") then AuthinfoUser
    else if Starts(line, "authinfo pass ") then AuthinfoPass
    else if allowed && Starts(line, "list newsgroups") then ListNewsgroups
    else if allowed && Starts(line, "list overview.fmt") then ListOverview
    else if allowed && Starts(line, "listgroup") then ListGroup
    else if allowed && Starts(line, "list") then List
    else if allowed && Starts(line, "xgtitle") then Xgtitle
    else if allowed && Starts(line, "help") then Help
    else if allowed && Starts(line, "group") then SelectGroup
    else if allowed && Starts(line, "xover") then Xover
    else if allowed && Starts(line, "xhdr") then Xhdr
    else if allowed && (Starts(line, "article") || Starts(line, "head") || Starts(line, "body") || Starts(line, "stat"))
    then Article
    else if allowed && Starts(line, "mode reader") then ModeReader
    else if allowed && Starts(line, "post") then PostArticle
    else if allowed && Starts(line, "date") then Date
    else if allowed && Starts(line, "capabilities") then Capabilities
    else if Starts(line, "starttls") then StartTls
    else if allowed && Starts(line, "NEWNEWS") then Newnews
    else if allowed then Unknown
    else AuthRequired
  }

  predicate Allowed(cfg: Config, c: Conn) {
    c.auth || !cfg.useAuth
  }

  /** The commands wrapped in CHECK_MANDATORY_TLS. */
  predicate NeedsTls(cmd: Command) {
    cmd in {AuthinfoUser, AuthinfoPass, ListNewsgroups, ListGroup, List, Xgtitle, SelectGroup, Xover, Xhdr,
            Article, ModeReader, PostArticle}
  }

  /** The handler a line reaches, if any: 483 and 480 are answered without one. */
  function Reached(cfg: Config, c: Conn, line: string): Option<Command> {
    var cmd := Classify(line, Allowed(cfg, c));
    if cmd == AuthRequired || (NeedsTls(cmd) && !c.tls && cfg.tlsMandatory) then None else Some(cmd)
  }

  // ---------- AUTHINFO, STARTTLS ----------

  function UserCmd(c: Conn, arg: Option<string>): (Conn, Reply) {
    match arg
    case None => (c.(auth := false), Line(501))
    case Some(user) => (c.(auth := false, user := Some(user)), Line(381))
  }

  predicate PasswordFits(cfg: Config, db: Db, user: string, pass: string) {
    user in db.users && db.users[user] == cfg.hash(user, pass)
  }

  /** The user name is forgotten after any check, unless ACLs need it. */
  function PassCmd(cfg: Config, db: Db, c: Conn, arg: Option<string>): (Conn, Reply) {
    if c.user.None? then (c.(auth := false), Line(381))
    else
      match arg
      case None => (c.(auth := false), Line(501))
      case Some(pass) =>
        var ok := PasswordFits(cfg, db, c.user.value, pass);
        (c.(auth := ok, user := if cfg.useAcl then c.user else None), Line(if ok then 281 else 482))
  }

  function StartTlsCmd(cfg: Config, c: Conn): (Conn, Reply) {
    if c.tls || !c.starttls || (cfg.useAuth && c.auth) then (c, Line(502))
    else (c.(switchTls := true), Line(382))
  }

  /** The switch itself, at the top of the next turn of the main loop. */
  function SwitchTls(c: Conn, ok: bool): Conn {
    if ok then c.(switchTls := false, tls := true, group := None, article := None)
    else c.(switchTls := false, alive := false)
  }

  // ---------- GROUP, LISTGROUP ----------

  ghost function GroupCmd(cfg: Config, db: Db, c: Conn, arg: Option<string>): (Conn, Reply) {
    match arg
    case None => (c, Line(501))
    case Some(g) =>
      if g !in db.groups || !Permitted(db, PolicyOf(cfg, c), g) then (c, Line(411))
      else
        var last := db.groups[g].high;
        (c.(group := Some(g), article := FirstNumber(db, g)),
         GroupLine(last, if last != 0 then 1 else 0, last, g))
  }

  /** The pointer goes to the last row listed; or to none, when there is no row or the latest
      ARTICLE found one. */
  ghost function Listed(db: Db, c: Conn, g: string): (Conn, Reply) {
    var nums := Sorted(NumbersOf(db, g));
    (c.(article := if c.foundArticle || nums == [] then None else Some(nums[|nums| - 1])), Numbers(nums))
  }

  /** A named group is selected before the ACLs are asked. */
  ghost function ListGroupCmd(cfg: Config, db: Db, c: Conn, arg: Option<string>): (Conn, Reply) {
    match arg
    case None =>
      if c.group.None? then (c, Line(412))
      else if !Permitted(db, PolicyOf(cfg, c), c.group.value) then (c, Line(411))
      else Listed(db, c, c.group.value)
    case Some(g) =>
      if g !in db.groups then (c, Line(411))
      else
        var c1 := c.(group := Some(g));
        if !Permitted(db, PolicyOf(cfg, c), g) then (c1, Line(411)) else Listed(db, c1, g)
  }

  // ---------- ARTICLE, HEAD, BODY, STAT ----------

  function Status(letter: char, num: nat, msgid: string): string {
    if letter == 'a' then "220 " + Dec(num) + " " + msgid + " article retrieved - head and body follow\r\n"
    else if letter == 'h' then "221 " + Dec(num) + " " + msgid + " article retrieved - head follows\r\n"
    else if letter == 'b' then "222 " + Dec(num) + " " + msgid + " article retrieved - body follows\r\n"
    else "223 " + Dec(num) + " " + msgid + " article retrieved - request text separately\r\n"
  }

  function HeaderOf(st: Store, msgid: string, end: string): string {
    if msgid in st.db.postings then st.db.postings[msgid].header + end else []
  }

  function BodyOf(st: Store, msgid: string): string {
    if FileName(msgid) in st.bodies then st.bodies[FileName(msgid)] else []
  }

  /** The whole reply to a found article; the letter is the command's first, in lower case. */
  function Shown(st: Store, letter: char, num: nat, msgid: string): string {
    Status(letter, num, msgid)
    + (if letter == 'a' then HeaderOf(st, msgid, CRLF) + BodyOf(st, msgid)
       else if letter == 'h' then HeaderOf(st, msgid, ".\r\n")
       else if letter == 'b' then BodyOf(st, msgid)
       else [])
  }

  function FirstLetter(line: string): char {
    if line == [] then NUL else Lower(line[0])
  }

  /** `<...>` up to and including the first '>'. */
  function IdArgument(param: string): Option<string> {
    var p := Find(param, ">", 0);
    if p.None? then None else Some(param[..p.value + 1])
  }

  /** Which message the argument names in group g: Some(None) is a search that finds nothing,
      None an argument the handler rejects. */
  ghost function Wanted(db: Db, current: Option<nat>, g: string, param: Option<string>, affinity: Affinity)
    : (w: Option<Option<string>>)
    ensures w.Some? && w.value.Some? ==> Key(w.value.value, g) in db.ngposts
  {
    if param.None? then
      if current.None? then None else Some(MessageAt(db, g, current.value))
    else if param.value != [] && param.value[0] == '<' then
      var id := IdArgument(param.value);
      if id.None? then None else Some(if Key(id.value, g) in db.ngposts then id else None)
    else if param.value != [] && IsDigit(param.value[0]) then
      var n := NumberOf(affinity, param.value);
      Some(if n.None? then None else MessageAt(db, g, n.value))
    else None
  }

  ghost function ArticleCmd(st: Store, c: Conn, letter: char, arg: Option<string>, affinity: Affinity): (Conn, Reply) {
    var c1 := c.(foundArticle := false);
    if c.group.None? then (c1, Line(412))
    else
      match Wanted(st.db, c.article, c.group.value, arg, affinity)
      case None => (c1, Line(420))
      case Some(None) => (c1, Line(430))
      case Some(Some(m)) =>
        var num := st.db.ngposts[Key(m, c.group.value)];
        (c1.(article := Some(num), foundArticle := true), Text(Shown(st, letter, num, m)))
  }

  // ---------- XOVER ----------

  function XoverCmd(db: Db, c: Conn, arg: Option<string>, uninitialised: nat): Reply {
    if c.group.None? then Line(412)
    else
      var g := c.group.value;
      var high := if g in db.groups then db.groups[g].high else uninitialised;
      if arg.None? && c.article.None? then Line(420)
      else
        var range := if arg.None? then (U32(c.article.value), U32(c.article.value)) else Range(arg.value, high);
        match Selected(db, g, range, high)
        case None => Line(420)
        case Some(rows) => OverviewLines(Items(db, rows))
  }

  // ---------- do_command and the main loop ----------

  ghost function Handle(cfg: Config, st: Store, c: Conn, cmd: Command, line: string, io: Io): (Store, Conn, Reply) {
    match cmd
    case Quit => (st, c.(alive := false), Line(205))
    case AuthinfoUser => var (c', r) := UserCmd(c, NthWord(line, 2)); (st, c', r)
    case AuthinfoPass => var (c', r) := PassCmd(cfg, st.db, c, NthWord(line, 2)); (st, c', r)
    case StartTls => var (c', r) := StartTlsCmd(cfg, c); (st, c', r)
    case SelectGroup => var (c', r) := GroupCmd(cfg, st.db, c, NthWord(line, 1)); (st, c', r)
    case ListGroup => var (c', r) := ListGroupCmd(cfg, st.db, c, NthWord(line, 1)); (st, c', r)
    case Article => var (c', r) := ArticleCmd(st, c, FirstLetter(line), NthWord(line, 1), cfg.affinity); (st, c', r)
    case Xover => (st, c, XoverCmd(st.db, c, NthWord(line, 1), io.uninitialised))
    case PostArticle =>
      var (st', outcome) := Posted(cfg.rules, st, PolicyOf(cfg, c), io.post);
      if outcome.Killed? then (st', c.(alive := false), Gone) else (st', c, Line(outcome.code))
    case Newnews => (st, c, Line(502))
    case Unknown => (st, c, Line(500))
    case _ => (st, c, Other)
  }

  lemma OthersNever240(cfg: Config, st: Store, c: Conn, cmd: Command, line: string, io: Io)
    requires cmd != PostArticle
    ensures Handle(cfg, st, c, cmd, line, io).2 != Line(240)
  {
  }

  ghost function DoCommand(cfg: Config, st: Store, c: Conn, line: string, io: Io): (Store, Conn, Reply) {
    match Reached(cfg, c, line)
    case Some(cmd) => Handle(cfg, st, c, cmd, line, io)
    case None =>
      (st, c, Line(if Classify(line, Allowed(cfg, c)) == AuthRequired then 480 else 483))
  }

  /** One turn of the main loop: a pending switch to TLS first, then one command line of what the
      client sends; without one the connection ends. */
  ghost function Serve(cfg: Config, st: Store, c: Conn, sent: string, io: Io): (Store, Conn, Reply) {
    var c1 := if c.switchTls then SwitchTls(c, io.tlsOk) else c;
    var line := CommandLine(sent);
    if !c1.alive then (st, c1, Gone)
    else if line.None? then (st, c1.(alive := false), Gone)
    else DoCommand(cfg, st, c1, line.value, io)
  }

  /** A new connection; on a TLS connector the handshake has already succeeded. */
  function Opened(cfg: Config, starttls: bool, tls: bool): Conn {
    Conn(true, !cfg.useAuth, None, starttls, tls, false, None, None, false)
  }
}
