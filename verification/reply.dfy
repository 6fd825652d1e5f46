/** The decisions `main` takes for each new post: whether to look at it at
    all, the list of title handles it writes, and which reply it posts. */
module Reply {
  import opened Wrappers
  import opened Text
  import opened Verifier
  import opened Titles
  import opened Orchestrator
  import opened GuardedOrchestrator

  const BotName := "tiktok-link"
  const RedditVideoPrefix := "https://v.redd.it/"

  /** A new post as the stream delivers it. A comment's author is `None`
      when the account behind it has been deleted. */
  datatype Submission = Submission(url: string, title: string, commentAuthors: seq<Option<string>>)

  /** `comment.author.name` evaluated on a comment without an author. This
      exception is raised outside any `try` and ends the bot. */
  datatype Crash = AuthorMissing

  /** The reply templates, and not replying at all. */
  datatype Template = TitleAndVideo | Title | Sure | Unsure | NoReply

  // ---------------------------------------------------------------------
  // Have we commented here before?

  /** The scan over the comments as written: stops at the first comment by
      the bot, and raises at the first comment without an author. */
  function BotCommentScan(authors: seq<Option<string>>): (r: Result<bool, Crash>)
    ensures r == Success(true) ==> Some(BotName) in authors
    ensures r.Failure? ==> None in authors
    ensures r == Success(false) ==> Some(BotName) !in authors && None !in authors
  {
    if authors == [] then Success(false)
    else if authors[0].None? then Failure(AuthorMissing)
    else if authors[0].value == BotName then Success(true)
    else BotCommentScan(authors[1..])
  }

  /** A comment that ends the scan. */
  predicate Settles(author: Option<string>)
  {
    author.None? || author == Some(BotName)
  }

  /** The loop that sets `skip` and breaks. */
  method FindBotComment(authors: seq<Option<string>>) returns (r: Result<bool, Crash>)
    ensures r == BotCommentScan(authors)
  {
    var skip := false;
    for i := 0 to |authors|
      invariant !skip
      invariant BotCommentScan(authors[i..]) == BotCommentScan(authors)
    {
      assert authors[i..][1..] == authors[i + 1..];
      if authors[i].None? {
        return Failure(AuthorMissing);
      }
      if authors[i].value == BotName {
        skip := true;
        break;
      }
    }
    if !skip {
      assert authors[|authors|..] == [];
    }
    return Success(skip);
  }

  /** The scan is decided by the first settling comment: `true` if the bot
      wrote it, a crash if it has no author; `false` when there is none. */
  lemma {:induction false} BotCommentScanFirst(authors: seq<Option<string>>, i: nat)
    requires i < |authors| && Settles(authors[i])
    requires forall j :: 0 <= j < i ==> !Settles(authors[j])
    ensures BotCommentScan(authors) == if authors[i].None? then Failure(AuthorMissing) else Success(true)
  {
    if i > 0 {
      BotCommentScanFirst(authors[1..], i - 1);
    }
  }

  lemma {:induction false} BotCommentScanNone(authors: seq<Option<string>>)
    requires forall j :: 0 <= j < |authors| ==> !Settles(authors[j])
    ensures BotCommentScan(authors) == Success(false)
  {
    if authors != [] {
      assert forall j :: 0 <= j < |authors| - 1 ==> authors[1..][j] == authors[j + 1];
      BotCommentScanNone(authors[1..]);
    }
  }

  /** A deleted comment ahead of the bot's own comment ends the bot. */
  lemma DeletedCommentCrashes()
    ensures BotCommentScan([None, Some(BotName)]) == Failure(AuthorMissing)
  {
  }

  /** The scan with the evidently intended guard: comments without an author
      are passed over, and the answer is whether the bot commented at all. */
  method HasBotComment(authors: seq<Option<string>>) returns (skip: bool)
    ensures skip <==> Some(BotName) in authors
  {
    skip := false;
    for i := 0 to |authors|
      invariant Some(BotName) !in authors[..i]
    {
      if authors[i].Some? && authors[i].value == BotName {
        skip := true;
        break;
      }
      assert authors[..i + 1] == authors[..i] + [authors[i]];
    }
    if !skip {
      assert authors[..|authors|] == authors;
    }
  }

  // ---------------------------------------------------------------------
  // The list of title handles.

  /** A title entry: a Markdown link to the handle's profile, up to `close`. */
  function Entry(u: string, close: string): string
  {
    "[" + u + "](" + ProfilePrefix + u + close
  }

  /** One entry as the source writes it: the link's `)` is missing. */
  function OpenLink(u: string): string
  {
    Entry(u, "\n\n")
  }

  /** The accumulated `title_usernames_md`. */
  function TitleLinks(us: seq<string>): (md: string)
    ensures md == "" <==> us == []
    ensures us != [] ==> md[0] == '['
  {
    if us == [] then "" else TitleLinks(us[..|us| - 1]) + OpenLink(us[|us| - 1])
  }

  /** The loop that appends one entry per title handle. */
  method TitleMarkdown(us: seq<string>) returns (md: string)
    ensures md == TitleLinks(us)
  {
    md := "";
    for i := 0 to |us|
      invariant md == TitleLinks(us[..i])
    {
      assert us[..i + 1][..i] == us[..i];
      md := md + "[" + us[i] + "](" + ProfilePrefix + us[i] + "\n\n";
    }
    assert us[..|us|] == us;
  }

  lemma TitleLinksSnoc(us: seq<string>, u: string)
    ensures TitleLinks(us + [u]) == TitleLinks(us) + OpenLink(u)
  {
    assert (us + [u])[..|us|] == us;
  }

  /** The entries follow the handles' order: the links of `a + b` are the
      links of `a` followed by those of `b`. */
  lemma {:induction false} TitleLinksAppend(a: seq<string>, b: seq<string>)
    ensures TitleLinks(a + b) == TitleLinks(a) + TitleLinks(b)
    decreases |b|
  {
    if b == [] {
      assert a + b == a;
    } else {
      var init, u := b[..|b| - 1], b[|b| - 1];
      assert b == init + [u];
      assert a + b == (a + init) + [u];
      TitleLinksAppend(a, init);
      TitleLinksSnoc(a + init, u);
      TitleLinksSnoc(init, u);
      var x, y, z := TitleLinks(a), TitleLinks(init), OpenLink(u);
      assert (x + y) + z == x + (y + z);
    }
  }

  /** The first handle's link comes first. */
  lemma TitleLinksCons(u: string, us: seq<string>)
    ensures TitleLinks([u] + us) == OpenLink(u) + TitleLinks(us)
  {
    TitleLinksAppend([u], us);
    assert [u][..0] == [];
  }

  predicate NoParens(u: string)
  {
    '(' !in u && ')' !in u
  }

  /** The number of times `c` occurs in `s`. */
  function Occurrences(s: string, c: char): nat
  {
    if s == [] then 0 else (if s[0] == c then 1 else 0) + Occurrences(s[1..], c)
  }

  lemma {:induction false} OccurrencesAppend(a: string, b: string, c: char)
    ensures Occurrences(a + b, c) == Occurrences(a, c) + Occurrences(b, c)
  {
    if a == [] {
      assert a + b == b;
    } else {
      assert (a + b)[1..] == a[1..] + b;
      OccurrencesAppend(a[1..], b, c);
    }
  }

  lemma {:induction false} OccurrencesAbsent(s: string, c: char)
    requires c !in s
    ensures Occurrences(s, c) == 0
  {
    if s != [] {
      OccurrencesAbsent(s[1..], c);
    }
  }

  lemma OccurrencesOfSix(p1: string, p2: string, p3: string, p4: string, p5: string, p6: string, c: char)
    ensures Occurrences(p1 + p2 + p3 + p4 + p5 + p6, c)
            == Occurrences(p1, c) + Occurrences(p2, c) + Occurrences(p3, c)
               + Occurrences(p4, c) + Occurrences(p5, c) + Occurrences(p6, c)
  {
    OccurrencesAppend(p1, p2, c);
    OccurrencesAppend(p1 + p2, p3, c);
    OccurrencesAppend(p1 + p2 + p3, p4, c);
    OccurrencesAppend(p1 + p2 + p3 + p4, p5, c);
    OccurrencesAppend(p1 + p2 + p3 + p4 + p5, p6, c);
  }

  /** The fixed text of an entry holds just the `(` that opens the URL. */
  lemma LinkTextParens(c: char)
    requires c == '(' || c == ')'
    ensures Occurrences("[", c) == 0
    ensures Occurrences("](", c) == if c == '(' then 1 else 0
  {
  }

  lemma PrefixHasNoParens()
    ensures Occurrences(ProfilePrefix, '(') == 0 && Occurrences(ProfilePrefix, ')') == 0
  {
    assert forall i :: 0 <= i < |ProfilePrefix| ==> ProfilePrefix[i] != '(' && ProfilePrefix[i] != ')';
    OccurrencesAbsent(ProfilePrefix, '(');
    OccurrencesAbsent(ProfilePrefix, ')');
  }

  /** An entry holds the `(` of its link, the handle's parentheses twice,
      and those of its ending. */
  lemma EntryParens(u: string, close: string, c: char)
    requires c == '(' || c == ')'
    ensures Occurrences(Entry(u, close), c)
            == (if c == '(' then 1 else 0) + 2 * Occurrences(u, c) + Occurrences(close, c)
  {
    LinkTextParens(c);
    PrefixHasNoParens();
    OccurrencesOfSix("[", u, "](", ProfilePrefix, u, close, c);
  }

  /** The parentheses in one entry, either way it is written. */
  lemma LinkParens(u: string)
    requires NoParens(u)
    ensures Occurrences(OpenLink(u), '(') == 1 && Occurrences(OpenLink(u), ')') == 0
    ensures Occurrences(ClosedLink(u), '(') == 1 && Occurrences(ClosedLink(u), ')') == 1
  {
    OccurrencesAbsent(u, '(');
    OccurrencesAbsent(u, ')');
    assert Occurrences("\n\n", '(') == 0 && Occurrences("\n\n", ')') == 0;
    assert Occurrences(")\n\n", '(') == 0 && Occurrences(")\n\n", ')') == 1;
    EntryParens(u, "\n\n", '(');
    EntryParens(u, "\n\n", ')');
    EntryParens(u, ")\n\n", '(');
    EntryParens(u, ")\n\n", ')');
  }

  /** Every entry opens a parenthesis and none is ever closed. */
  lemma {:induction false} TitleLinksNeverClose(us: seq<string>)
    requires forall i :: 0 <= i < |us| ==> NoParens(us[i])
    ensures Occurrences(TitleLinks(us), '(') == |us|
    ensures Occurrences(TitleLinks(us), ')') == 0
  {
    if us != [] {
      var init, u := us[..|us| - 1], us[|us| - 1];
      TitleLinksNeverClose(init);
      LinkParens(u);
      OccurrencesAppend(TitleLinks(init), OpenLink(u), '(');
      OccurrencesAppend(TitleLinks(init), OpenLink(u), ')');
    }
  }

  /** One entry as evidently intended, closed like the other templates' links. */
  function ClosedLink(u: string): string
  {
    Entry(u, ")\n\n")
  }

  function ClosedTitleLinks(us: seq<string>): string
  {
    if us == [] then "" else ClosedTitleLinks(us[..|us| - 1]) + ClosedLink(us[|us| - 1])
  }

  /** Every entry opens one parenthesis and closes it. */
  lemma {:induction false} ClosedTitleLinksBalanced(us: seq<string>)
    requires forall i :: 0 <= i < |us| ==> NoParens(us[i])
    ensures Occurrences(ClosedTitleLinks(us), '(') == |us|
    ensures Occurrences(ClosedTitleLinks(us), ')') == |us|
  {
    if us != [] {
      var init, u := us[..|us| - 1], us[|us| - 1];
      ClosedTitleLinksBalanced(init);
      LinkParens(u);
      OccurrencesAppend(ClosedTitleLinks(init), ClosedLink(u), '(');
      OccurrencesAppend(ClosedTitleLinks(init), ClosedLink(u), ')');
    }
  }

  // ---------------------------------------------------------------------
  // Which reply.

  /** The `if`/`elif` chain choosing the template. */
  function SelectTemplate(titleUsers: seq<string>, username: Option<string>, sure: bool): (t: Template)
    ensures t == TitleAndVideo <==> |titleUsers| > 0 && username.Some?
    ensures t == Title <==> |titleUsers| > 0 && username.None?
    ensures t == Sure <==> |titleUsers| == 0 && username.Some? && sure
    ensures t == Unsure <==> |titleUsers| == 0 && username.Some? && !sure
    ensures t == NoReply <==> |titleUsers| == 0 && username.None?
  {
    if |titleUsers| > 0 && username.Some? then TitleAndVideo
    else if |titleUsers| > 0 && username.None? then Title
    else if username.Some? && sure then Sure
    else if username.Some? && !sure then Unsure
    else NoReply
  }

  /** Handles in the title always select a title template, whatever `sure` says. */
  lemma TitleTemplateIgnoresSure(titleUsers: seq<string>, username: Option<string>)
    requires |titleUsers| > 0
    ensures SelectTemplate(titleUsers, username, true) == SelectTemplate(titleUsers, username, false)
    ensures SelectTemplate(titleUsers, username, true) in {TitleAndVideo, Title}
  {
  }

  /** The template once the extraction has run; an exception from it is
      printed and the post is skipped. */
  function Decide(titleUsers: seq<string>, x: Result<Extraction, Failure>): (t: Template)
    ensures x.Failure? ==> t == NoReply
    ensures x.Success? && |titleUsers| > 0 ==> t == TitleAndVideo || t == Title
    ensures t == Sure || t == Unsure ==> x.Success? && x.value.username.Some? && t == (if x.value.sure then Sure else Unsure)
  {
    match x
    case Failure(_) => NoReply
    case Success(e) => SelectTemplate(titleUsers, e.username, e.sure)
  }

  /** The body of `main`'s loop for one post. */
  method HandleSubmission(s: Submission, m: Media) returns (r: Result<Template, Crash>)
    ensures !StartsWith(s.url, RedditVideoPrefix) ==> r == Success(NoReply)
    ensures StartsWith(s.url, RedditVideoPrefix) ==>
              r == match BotCommentScan(s.commentAuthors)
                   case Failure(e) => Failure(e)
                   case Success(true) => Success(NoReply)
                   case Success(false) => Success(Decide(Handles(Words(s.title)), ExtractUsername(m)))
  {
    if !StartsWith(s.url, RedditVideoPrefix) {
      return Success(NoReply);
    }
    var seen := FindBotComment(s.commentAuthors);
    if seen.Failure? {
      return Failure(seen.error);
    }
    if seen.value {
      return Success(NoReply);
    }
    var titleUsers := UsernamesFromTitle(s.title);
    if |titleUsers| > 0 {
      var md := TitleMarkdown(titleUsers);
    }
    var x := GetUsernameFromVideo(m);
    if x.Failure? {
      return Success(NoReply);
    }
    return Success(SelectTemplate(titleUsers, x.value.username, x.value.sure));
  }

  /** A post whose title names a handle, whose video shows none, and whose
      host answers 429 to the lookup of `None`: that lookup raises and the
      title reply is lost; with the guard the title reply is posted. */
  lemma NoneLookupDropsTitleReply()
    ensures Decide(["@someone"], ExtractUsername(Unreadable)) == NoReply
    ensures Decide(["@someone"], ExtractGuarded(Unreadable)) == Title
  {
  }
}
