/** Which handler a command line reaches, keyword by keyword, in any letter case and whatever stands
    behind the keyword; and which lines are turned away. */
module Keywords {
  import opened CStrings
  import opened Session

  // ---------- Letter case ----------

  /** The same character, or the same ASCII letter in the other case. */
  predicate SameLetter(a: char, b: char) {
    a == b || ('A' <= a <= 'Z' && b as int == a as int + 32) || ('A' <= b <= 'Z' && a as int == b as int + 32)
  }

  /** The comparison ignores the case of ASCII letters and nothing else. */
  lemma CaseOnly(a: char, b: char)
    ensures Lower(a) == Lower(b) <==> SameLetter(a, b)
  {
  }

  // ---------- Keywords ----------

  lemma FirstLetterOf(line: string, word: string)
    requires word != [] && Starts(line, word)
    ensures line != [] && Lower(line[0]) == Lower(word[0])
  {
    MatchedChar(line, 0, word, 0);
  }

  /** One differing character rules a keyword out. */
  lemma Differs(line: string, word: string, other: string, k: nat)
    requires Starts(line, word) && k < |word| && k < |other| && Lower(word[k]) != Lower(other[k])
    ensures !Starts(line, other)
  {
    MatchedChar(line, 0, word, k);
    assert line[0 + k] == line[k];
  }

  lemma NotWith(line: string, c: char, other: string)
    requires line != [] && Lower(line[0]) == c && other != [] && Lower(other[0]) != c
    ensures !Starts(line, other)
  {
    assert line[0 + 0] == line[0];
  }

  /** No keyword starts with another letter than the line. */
  lemma OnlyWith(line: string, c: char)
    requires line != [] && Lower(line[0]) == c
    ensures c != 'q' ==> !Starts(line, "quit")
    ensures c != 'a' ==> !Starts(line, "authinfo user ") && !Starts(line, "authinfo pass ") && !Starts(line, "article")
    ensures c != 'l' ==> !Starts(line, "list newsgroups") && !Starts(line, "list overview.fmt")
                         && !Starts(line, "listgroup") && !Starts(line, "list")
    ensures c != 'x' ==> !Starts(line, "xgtitle") && !Starts(line, "xover") && !Starts(line, "xhdr")
    ensures c != 'h' ==> !Starts(line, "help") && !Starts(line, "head")
    ensures c != 'g' ==> !Starts(line, "group")
    ensures c != 'b' ==> !Starts(line, "body")
    ensures c != 's' ==> !Starts(line, "stat") && !Starts(line, "starttls")
    ensures c != 'm' ==> !Starts(line, "mode reader")
    ensures c != 'p' ==> !Starts(line, "post")
    ensures c != 'd' ==> !Starts(line, "date")
    ensures c != 'c' ==> !Starts(line, "capabilities")
    ensures c != 'n' ==> !Starts(line, "NEWNEWS")
  {
    if c != 'q' { NotWith(line, c, "quit"); }
    if c != 'a' {
      NotWith(line, c, "authinfo user ");
      NotWith(line, c, "authinfo pass ");
      NotWith(line, c, "article");
    }
    if c != 'l' {
      NotWith(line, c, "list newsgroups");
      NotWith(line, c, "list overview.fmt");
      NotWith(line, c, "listgroup");
      NotWith(line, c, "list");
    }
    if c != 'x' {
      NotWith(line, c, "xgtitle");
      NotWith(line, c, "xover");
      NotWith(line, c, "xhdr");
    }
    if c != 'h' {
      NotWith(line, c, "help");
      NotWith(line, c, "head");
    }
    if c != 'g' { NotWith(line, c, "group"); }
    if c != 'b' { NotWith(line, c, "body"); }
    if c != 's' {
      NotWith(line, c, "stat");
      NotWith(line, c, "starttls");
    }
    if c != 'm' { NotWith(line, c, "mode reader"); }
    if c != 'p' { NotWith(line, c, "post"); }
    if c != 'd' { NotWith(line, c, "date"); }
    if c != 'c' { NotWith(line, c, "capabilities"); }
    if c != 'n' { NotWith(line, c, "NEWNEWS"); }
  }

  lemma QuitWord(line: string, allowed: bool)
    requires Starts(line, "quit")
    ensures Classify(line, allowed) == Quit
  {
  }

  lemma AuthinfoUserWord(line: string, allowed: bool)
    requires Starts(line, "authinfo user ")
    ensures Classify(line, allowed) == AuthinfoUser
  {
    FirstLetterOf(line, "authinfo user ");
    OnlyWith(line, 'a');
  }

  lemma AuthinfoPassWord(line: string, allowed: bool)
    requires Starts(line, "authinfo pass ")
    ensures Classify(line, allowed) == AuthinfoPass
  {
    FirstLetterOf(line, "authinfo pass ");
    OnlyWith(line, 'a');
    Differs(line, "authinfo pass ", "authinfo user ", 9);
  }

  lemma ListNewsgroupsWord(line: string)
    requires Starts(line, "list newsgroups")
    ensures Classify(line, true) == ListNewsgroups
  {
    FirstLetterOf(line, "list newsgroups");
    OnlyWith(line, 'l');
  }

  lemma ListOverviewWord(line: string)
    requires Starts(line, "list overview.fmt")
    ensures Classify(line, true) == ListOverview
  {
    FirstLetterOf(line, "list overview.fmt");
    OnlyWith(line, 'l');
    Differs(line, "list overview.fmt", "list newsgroups", 5);
  }

  lemma ListGroupWord(line: string)
    requires Starts(line, "listgroup")
    ensures Classify(line, true) == ListGroup
  {
    FirstLetterOf(line, "listgroup");
    OnlyWith(line, 'l');
    Differs(line, "listgroup", "list newsgroups", 4);
    Differs(line, "listgroup", "list overview.fmt", 4);
  }

  lemma ListWord(line: string)
    requires Starts(line, "list") && !Starts(line, "list newsgroups") && !Starts(line, "list overview.fmt")
    requires !Starts(line, "listgroup")
    ensures Classify(line, true) == List
  {
    FirstLetterOf(line, "list");
    OnlyWith(line, 'l');
  }

  lemma XgtitleWord(line: string)
    requires Starts(line, "xgtitle")
    ensures Classify(line, true) == Xgtitle
  {
    FirstLetterOf(line, "xgtitle");
    OnlyWith(line, 'x');
  }

  lemma HelpWord(line: string)
    requires Starts(line, "help")
    ensures Classify(line, true) == Help
  {
    FirstLetterOf(line, "help");
    OnlyWith(line, 'h');
  }

  lemma SelectGroupWord(line: string)
    requires Starts(line, "group")
    ensures Classify(line, true) == SelectGroup
  {
    FirstLetterOf(line, "group");
    OnlyWith(line, 'g');
  }

  lemma XoverWord(line: string)
    requires Starts(line, "xover")
    ensures Classify(line, true) == Xover
  {
    FirstLetterOf(line, "xover");
    OnlyWith(line, 'x');
    Differs(line, "xover", "xgtitle", 1);
  }

  lemma XhdrWord(line: string)
    requires Starts(line, "xhdr")
    ensures Classify(line, true) == Xhdr
  {
    FirstLetterOf(line, "xhdr");
    OnlyWith(line, 'x');
    Differs(line, "xhdr", "xgtitle", 1);
    Differs(line, "xhdr", "xover", 1);
  }

  lemma ArticleWord(line: string)
    requires Starts(line, "article")
    ensures Classify(line, true) == Article
  {
    FirstLetterOf(line, "article");
    OnlyWith(line, 'a');
    Differs(line, "article", "authinfo user ", 1);
    Differs(line, "article", "authinfo pass ", 1);
  }

  lemma HeadWord(line: string)
    requires Starts(line, "head")
    ensures Classify(line, true) == Article
  {
    FirstLetterOf(line, "head");
    OnlyWith(line, 'h');
    Differs(line, "head", "help", 2);
  }

  lemma BodyWord(line: string)
    requires Starts(line, "body")
    ensures Classify(line, true) == Article
  {
    FirstLetterOf(line, "body");
    OnlyWith(line, 'b');
  }

  lemma StatWord(line: string)
    requires Starts(line, "stat")
    ensures Classify(line, true) == Article
  {
    FirstLetterOf(line, "stat");
    OnlyWith(line, 's');
  }

  lemma ModeReaderWord(line: string)
    requires Starts(line, "mode reader")
    ensures Classify(line, true) == ModeReader
  {
    FirstLetterOf(line, "mode reader");
    OnlyWith(line, 'm');
  }

  lemma PostArticleWord(line: string)
    requires Starts(line, "post")
    ensures Classify(line, true) == PostArticle
  {
    FirstLetterOf(line, "post");
    OnlyWith(line, 'p');
  }

  lemma DateWord(line: string)
    requires Starts(line, "date")
    ensures Classify(line, true) == Date
  {
    FirstLetterOf(line, "date");
    OnlyWith(line, 'd');
  }

  lemma CapabilitiesWord(line: string)
    requires Starts(line, "capabilities")
    ensures Classify(line, true) == Capabilities
  {
    FirstLetterOf(line, "capabilities");
    OnlyWith(line, 'c');
  }

  lemma StartTlsWord(line: string, allowed: bool)
    requires Starts(line, "starttls")
    ensures Classify(line, allowed) == StartTls
  {
    FirstLetterOf(line, "starttls");
    OnlyWith(line, 's');
    Differs(line, "starttls", "stat", 3);
  }

  lemma NewnewsWord(line: string)
    requires Starts(line, "NEWNEWS")
    ensures Classify(line, true) == Newnews
  {
    FirstLetterOf(line, "NEWNEWS");
    OnlyWith(line, 'n');
  }

  /** With a login, or where none is needed: what every keyword of the protocol reaches, whatever stands
      behind it, and that nothing else is known. */
  lemma EveryKeyword(line: string)
    ensures Starts(line, "quit") <==> Classify(line, true) == Quit
    ensures Starts(line, "authinfo user ") <==> Classify(line, true) == AuthinfoUser
    ensures Starts(line, "authinfo pass ") <==> Classify(line, true) == AuthinfoPass
    ensures Starts(line, "list newsgroups") <==> Classify(line, true) == ListNewsgroups
    ensures Starts(line, "list overview.fmt") <==> Classify(line, true) == ListOverview
    ensures Starts(line, "listgroup") <==> Classify(line, true) == ListGroup
    ensures Starts(line, "xgtitle") <==> Classify(line, true) == Xgtitle
    ensures Starts(line, "help") <==> Classify(line, true) == Help
    ensures Starts(line, "group") <==> Classify(line, true) == SelectGroup
    ensures Starts(line, "xover") <==> Classify(line, true) == Xover
    ensures Starts(line, "xhdr") <==> Classify(line, true) == Xhdr
  {
    if Starts(line, "authinfo user ") { AuthinfoUserWord(line, true); }
    if Starts(line, "authinfo pass ") { AuthinfoPassWord(line, true); }
    if Starts(line, "quit") { QuitWord(line, true); }
    if Starts(line, "list newsgroups") { ListNewsgroupsWord(line); }
    if Starts(line, "list overview.fmt") { ListOverviewWord(line); }
    if Starts(line, "listgroup") { ListGroupWord(line); }
    if Starts(line, "xgtitle") { XgtitleWord(line); }
    if Starts(line, "help") { HelpWord(line); }
    if Starts(line, "group") { SelectGroupWord(line); }
    if Starts(line, "xover") { XoverWord(line); }
    if Starts(line, "xhdr") { XhdrWord(line); }
  }

  lemma ListAndArticle(line: string)
    ensures (Starts(line, "list") && !Starts(line, "list newsgroups") && !Starts(line, "list overview.fmt")
             && !Starts(line, "listgroup")) <==> Classify(line, true) == List
    ensures (Starts(line, "article") || Starts(line, "head") || Starts(line, "body") || Starts(line, "stat"))
            <==> Classify(line, true) == Article
  {
    if Starts(line, "list") && !Starts(line, "list newsgroups") && !Starts(line, "list overview.fmt")
       && !Starts(line, "listgroup") { ListWord(line); }
    if Starts(line, "article") { ArticleWord(line); }
    if Starts(line, "head") { HeadWord(line); }
    if Starts(line, "body") { BodyWord(line); }
    if Starts(line, "stat") { StatWord(line); }
  }

  lemma EveryOtherKeyword(line: string)
    ensures Starts(line, "mode reader") <==> Classify(line, true) == ModeReader
    ensures Starts(line, "post") <==> Classify(line, true) == PostArticle
    ensures Starts(line, "date") <==> Classify(line, true) == Date
    ensures Starts(line, "capabilities") <==> Classify(line, true) == Capabilities
    ensures Starts(line, "starttls") <==> Classify(line, true) == StartTls
    ensures Starts(line, "NEWNEWS") <==> Classify(line, true) == Newnews
  {
    if Starts(line, "mode reader") { ModeReaderWord(line); }
    if Starts(line, "post") { PostArticleWord(line); }
    if Starts(line, "date") { DateWord(line); }
    if Starts(line, "capabilities") { CapabilitiesWord(line); }
    if Starts(line, "starttls") { StartTlsWord(line, true); }
    if Starts(line, "NEWNEWS") { NewnewsWord(line); }
  }

  lemma NothingRefused(line: string)
    ensures Classify(line, true) != AuthRequired
  {
  }

  /** Without a login: four keywords reach their handlers, every other line is answered 480. */
  lemma WithoutLogin(line: string)
    ensures Starts(line, "quit") <==> Classify(line, false) == Quit
    ensures Starts(line, "authinfo user ") <==> Classify(line, false) == AuthinfoUser
    ensures Starts(line, "authinfo pass ") <==> Classify(line, false) == AuthinfoPass
    ensures Starts(line, "starttls") <==> Classify(line, false) == StartTls
    ensures (!Starts(line, "quit") && !Starts(line, "authinfo user ") && !Starts(line, "authinfo pass ")
             && !Starts(line, "starttls")) <==> Classify(line, false) == AuthRequired
  {
    if Starts(line, "authinfo user ") { AuthinfoUserWord(line, false); }
    if Starts(line, "authinfo pass ") { AuthinfoPassWord(line, false); }
    if Starts(line, "quit") { QuitWord(line, false); }
    if Starts(line, "starttls") { StartTlsWord(line, false); }
  }
}
