/** The session object and its handlers as the code runs them (src/server.c, src/db_sqlite3.c),
    each proved against its function in module Session. */
module Connections {
  import opened CStrings
  import opened Tables
  import opened Delivery
  import opened Post
  import opened Overview
  import opened Reading
  import opened Tokenizer
  import opened CommandReader
  import opened Session

  class Connection {
    var alive: bool
    var auth: bool
    var user: Option<string>
    const starttls: bool
    var tls: bool
    var switchTls: bool
    var group: Option<string>
    var article: Option<nat>
    var foundArticle: bool
    var counter: nat

    function State(): Conn
      reads this
    {
      Conn(alive, auth, user, starttls, tls, switchTls, group, article, foundArticle)
    }

    constructor (cfg: Config, starttls: bool, tls: bool)
      ensures State() == Opened(cfg, starttls, tls)
    {
      this.starttls, this.tls := starttls, tls;
      alive, auth, user, switchTls := true, !cfg.useAuth, None, false;
      group, article, foundArticle, counter := None, None, false, 0;
    }

    method AuthinfoUserCmd(line: string) returns (r: Reply)
      modifies this
      ensures (State(), r) == UserCmd(old(State()), NthWord(line, 2))
    {
      auth := false;
      var name := GetSlineArg(line, 2);
      if name.None? {
        return Line(501);
      }
      user := name;
      return Line(381);
    }

    method AuthinfoPassCmd(cfg: Config, db: Database, line: string) returns (r: Reply)
      modifies this
      ensures (State(), r) == PassCmd(cfg, db.State(), old(State()), NthWord(line, 2))
    {
      auth := false;
      if user.None? {
        return Line(381);
      }
      var pass := GetSlineArg(line, 2);
      if pass.None? {
        return Line(501);
      }
      var hash := cfg.hash(user.value, pass.value);
      if user.value in db.users && db.users[user.value] == hash {
        auth := true;
      }
      r := Line(if auth then 281 else 482);
      if !cfg.useAcl {
        user := None;
      }
    }

    method StartTlsCommand(cfg: Config) returns (r: Reply)
      modifies this
      ensures (State(), r) == StartTlsCmd(cfg, old(State()))
    {
      if tls {
        return Line(502);
      }
      if !starttls {
        return Line(502);
      }
      if cfg.useAuth && auth {
        return Line(502);
      }
      switchTls := true;
      return Line(382);
    }

    method GroupCommand(cfg: Config, db: Database, line: string) returns (r: Reply)
      modifies this
      ensures (State(), r) == GroupCmd(cfg, db.State(), old(State()), NthWord(line, 1))
    {
      var name := GetSlineArg(line, 1);
      if name.None? {
        return Line(501);
      }
      if name.value !in db.groups {
        return Line(411);
      }
      if cfg.useAuth && cfg.useAcl && !Access(db.State(), user, name.value) {
        return Line(411);
      }
      var last := db.groups[name.value].high;
      r := GroupLine(last, if last != 0 then 1 else 0, last, name.value);
      group := name;
      article := None;
      var nums := set k | k in db.ngposts && k.ng == name.value :: db.ngposts[k];
      article := MinPostnum(nums);
    }

    /** The listing callback, row by row. */
    method ListRows(db: Database, g: string) returns (r: Reply)
      modifies this
      ensures (State(), r) == Listed(db.State(), old(State()), g)
    {
      var nums := SelectPostnums(db, g);
      counter := 0;
      var i := 0;
      while i < |nums|
        invariant i <= |nums| && counter == (if foundArticle then 0 else i)
        invariant State()
                  == old(State()).(article := if i == 0 || foundArticle then old(article) else Some(nums[i - 1]))
      {
        if !foundArticle {
          article := Some(nums[i]);
          counter := counter + 1;
        }
        i := i + 1;
      }
      if counter == 0 {
        article := None;
      }
      return Numbers(nums);
    }

    method ListGroupCommand(cfg: Config, db: Database, line: string) returns (r: Reply)
      modifies this
      ensures (State(), r) == ListGroupCmd(cfg, db.State(), old(State()), NthWord(line, 1))
    {
      var name := GetSlineArg(line, 1);
      if name.None? {
        if group.None? {
          return Line(412);
        }
        name := group;
      } else {
        if name.value !in db.groups {
          return Line(411);
        }
        group := name;
      }
      if cfg.useAuth && cfg.useAcl && !Access(db.State(), user, name.value) {
        return Line(411);
      }
      r := ListRows(db, name.value);
    }

    /** The callback for a row that was found. */
    method ShowArticle(db: Database, spool: Spool, letter: char, msgid: string, num: nat) returns (r: Reply)
      modifies this
      ensures State() == old(State()).(article := Some(num), foundArticle := true)
      ensures r == Text(Shown(StoreOf(db, spool), letter, num, msgid))
    {
      article := Some(num);
      var st := StoreOf(db, spool);
      var out := Status(letter, num, msgid);
      if letter == 'a' {
        out := out + (HeaderOf(st, msgid, CRLF) + BodyOf(st, msgid));
      } else if letter == 'h' {
        out := out + HeaderOf(st, msgid, ".\r\n");
      } else if letter == 'b' {
        out := out + BodyOf(st, msgid);
      } else {
        assert out + [] == out;
      }
      foundArticle := true;
      return Text(out);
    }

    /** Telling the three kinds of argument apart and running the query. */
    method FindWanted(db: Database, g: string, line: string, affinity: Affinity) returns (w: Option<Option<string>>)
      requires NoNumberTwice(db.State())
      ensures w == Wanted(db.State(), article, g, NthWord(line, 1), affinity)
    {
      var param := GetSlineArg(line, 1);
      if param.None? {
        if article.None? {
          return None;
        }
        var m := SelectByNumber(db, g, article.value);
        return Some(m);
      }
      if param.value != [] && param.value[0] == '<' {
        var id := IdArgument(param.value);
        if id.None? {
          return None;
        }
        return Some(if Key(id.value, g) in db.ngposts then id else None);
      }
      if param.value != [] && '0' <= param.value[0] <= '9' {
        var number := NumberOf(affinity, param.value);
        if number.None? {
          return Some(None);
        }
        var m := SelectByNumber(db, g, number.value);
        return Some(m);
      }
      return None;
    }

    method ArticleCommand(db: Database, spool: Spool, line: string, affinity: Affinity) returns (r: Reply)
      requires NoNumberTwice(db.State())
      modifies this
      ensures (State(), r)
              == ArticleCmd(StoreOf(db, spool), old(State()), FirstLetter(line), NthWord(line, 1), affinity)
    {
      foundArticle := false;
      if group.None? {
        return Line(412);
      }
      var w := FindWanted(db, group.value, line, affinity);
      if w.None? {
        return Line(420);
      }
      if w.value.None? {
        return Line(430);
      }
      var num := db.ngposts[Key(w.value.value, group.value)];
      r := ShowArticle(db, spool, FirstLetter(line), w.value.value, num);
    }

    method XoverCommand(db: Database, line: string, uninitialised: nat) returns (r: Reply)
      ensures r == XoverCmd(db.State(), State(), NthWord(line, 1), uninitialised)
    {
      if group.None? {
        return Line(412);
      }
      var realMax := db.GetHighValue(group.value, uninitialised);
      var word := GetSlineArg(line, 1);
      var min, max;
      if word.None? {
        if article.None? {
          return Line(420);
        }
        min := U32(article.value);
        max := min;
      } else {
        min, max := ParseRange(word.value, realMax);
      }
      if min > realMax || min > max {
        return Line(420);
      }
      var items := XoverRows(db, group.value, I32(min), I32(max));
      return OverviewLines(items);
    }

    method PostCommand(cfg: Config, db: Database, spool: Spool, io: Io) returns (r: Reply)
      requires forall i :: 0 <= i < |io.post.chunks| ==> Free(io.post.chunks[i], NUL)
      modifies this, db, spool
      ensures var (st', outcome) := Posted(cfg.rules, old(StoreOf(db, spool)), PolicyOf(cfg, old(State())), io.post);
              && StoreOf(db, spool) == st'
              && State() == (if outcome.Killed? then old(State()).(alive := false) else old(State()))
              && r == (if outcome.Killed? then Gone else Line(outcome.code))
    {
      var outcome := DocmdPost(cfg.rules, db, spool, Policy(cfg.useAuth && cfg.useAcl, user), io.post);
      if outcome.Killed? {
        alive := false;
        return Gone;
      }
      return Line(outcome.code);
    }

    method Dispatch(cfg: Config, db: Database, spool: Spool, cmd: Command, line: string, io: Io) returns (r: Reply)
      requires NoNumberTwice(db.State())
      requires forall i :: 0 <= i < |io.post.chunks| ==> Free(io.post.chunks[i], NUL)
      modifies this, db, spool
      ensures (StoreOf(db, spool), State(), r) == Handle(cfg, old(StoreOf(db, spool)), old(State()), cmd, line, io)
    {
      match cmd
      case Quit => alive := false; r := Line(205);
      case AuthinfoUser => r := AuthinfoUserCmd(line);
      case AuthinfoPass => r := AuthinfoPassCmd(cfg, db, line);
      case StartTls => r := StartTlsCommand(cfg);
      case SelectGroup => r := GroupCommand(cfg, db, line);
      case ListGroup => r := ListGroupCommand(cfg, db, line);
      case Article => r := ArticleCommand(db, spool, line, cfg.affinity);
      case Xover => r := XoverCommand(db, line, io.uninitialised);
      case PostArticle => r := PostCommand(cfg, db, spool, io);
      case Newnews => r := Line(502);
      case Unknown => r := Line(500);
      case _ => r := Other;
    }

    /** `do_command`. */
    method RunLine(cfg: Config, db: Database, spool: Spool, line: string, io: Io) returns (r: Reply)
      requires NoNumberTwice(db.State())
      requires forall i :: 0 <= i < |io.post.chunks| ==> Free(io.post.chunks[i], NUL)
      modifies this, db, spool
      ensures (StoreOf(db, spool), State(), r) == DoCommand(cfg, old(StoreOf(db, spool)), old(State()), line, io)
    {
      var cmd := Classify(line, auth || !cfg.useAuth);
      if cmd == AuthRequired {
        return Line(480);
      }
      if NeedsTls(cmd) && !tls && cfg.tlsMandatory {
        return Line(483);
      }
      r := Dispatch(cfg, db, spool, cmd, line, io);
    }

    /** One turn of the main loop. */
    method ServeLine(cfg: Config, db: Database, spool: Spool, sent: string, io: Io) returns (r: Reply)
      requires NoNumberTwice(db.State()) && Free(sent, NUL)
      requires forall i :: 0 <= i < |io.post.chunks| ==> Free(io.post.chunks[i], NUL)
      modifies this, db, spool
      ensures (StoreOf(db, spool), State(), r) == Serve(cfg, old(StoreOf(db, spool)), old(State()), sent, io)
    {
      if switchTls {
        switchTls := false;
        if !io.tlsOk {
          alive := false;
          return Gone;
        }
        tls := true;
        group := None;
        article := None;
      }
      if !alive {
        return Gone;
      }
      var line := ReadCommand(sent);
      if line.None? {
        alive := false;
        return Gone;
      }
      r := RunLine(cfg, db, spool, line.value, io);
    }
  }
}
