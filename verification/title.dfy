/** `get_usernames_from_title`: the words of a post title that are handles. */
module Titles {
  import opened Text

  predicate IsHandle(w: string)
  {
    StartsWith(w, "@")
  }

  /** The words that start with `@`, in their order, duplicates kept. */
  function Handles(ws: seq<string>): (hs: seq<string>)
    ensures |hs| <= |ws|
    ensures forall i :: 0 <= i < |hs| ==> IsHandle(hs[i])
  {
    if ws == [] then []
    else Handles(ws[..|ws| - 1]) + (if IsHandle(ws[|ws| - 1]) then [ws[|ws| - 1]] else [])
  }

  /** The loop that appends each handle of `title.split()` to `users`. */
  method UsernamesFromTitle(title: string) returns (users: seq<string>)
    ensures users == Handles(Words(title))
    ensures forall i :: 0 <= i < |users| ==> IsHandle(users[i]) && IsWord(users[i])
  {
    var words := Words(title);
    users := [];
    for i := 0 to |words|
      invariant users == Handles(words[..i])
    {
      assert words[..i + 1][..i] == words[..i];
      if StartsWith(words[i], "@") {
        users := users + [words[i]];
      }
    }
    assert words[..|words|] == words;
    HandlesAreWords(title);
  }

  /** Filtering distributes over concatenation: the relative order of the
      handles is the order of the words. */
  lemma {:induction false} HandlesAppend(a: seq<string>, b: seq<string>)
    ensures Handles(a + b) == Handles(a) + Handles(b)
    decreases |b|
  {
    if b == [] {
      assert a + b == a;
    } else {
      var b' := b[..|b| - 1];
      assert (a + b)[..|a + b| - 1] == a + b';
      HandlesAppend(a, b');
    }
  }

  /** Each handle occurs as often as in the title's words, every other word
      not at all. */
  lemma {:induction false} HandlesCount(ws: seq<string>, w: string)
    ensures multiset(Handles(ws))[w] == if IsHandle(w) then multiset(ws)[w] else 0
  {
    if ws != [] {
      var init := ws[..|ws| - 1];
      HandlesCount(init, w);
      assert ws == init + [ws[|ws| - 1]];
    }
  }

  /** Every returned handle is one whole word of the title. */
  lemma HandlesAreWords(title: string)
    ensures forall i :: 0 <= i < |Handles(Words(title))| ==> IsWord(Handles(Words(title))[i])
  {
    var ws := Words(title);
    WordsAreWords(title);
    forall i | 0 <= i < |Handles(ws)|
      ensures IsWord(Handles(ws)[i])
    {
      var h := Handles(ws)[i];
      HandlesCount(ws, h);
      assert h in multiset(Handles(ws));
      assert h in ws;
    }
  }
}
