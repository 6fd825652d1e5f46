/** `clean_text`: picks the first OCR string that looks like a handle and
    canonicalises it into a username token. */
module Normalizer {
  import opened Wrappers
  import opened Text

  /** The localised label OCR reads in front of the floating watermark handle. */
  const WatermarkLabel := "TikTok "
  const WatermarkPrefix := "TikTok @"

  /** An OCR string `clean_text` accepts: a handle, or a watermark handle. */
  predicate IsCandidate(text: string)
  {
    StartsWith(text, "@") || StartsWith(text, WatermarkPrefix)
  }

  /** `.lower().replace(" ", "_")` */
  function Canonical(s: string): (r: string)
    ensures |r| == |s|
    ensures forall i :: 0 <= i < |s| ==> r[i] == FoldChar(s[i])
    ensures forall i :: 0 <= i < |r| ==> r[i] != ' ' && !IsUpper(r[i])
  {
    ReplaceSpaces(Lower(s))
  }

  /** What one character becomes in a token. */
  function FoldChar(c: char): char
  {
    if c == ' ' then '_' else LowerChar(c)
  }

  /** The shape every token has: an `@` first, no space, no ASCII capital. */
  predicate IsToken(u: string)
  {
    |u| > 0 && u[0] == '@' && forall i :: 0 <= i < |u| ==> u[i] != ' ' && !IsUpper(u[i])
  }

  /** The token a candidate string becomes: the whole string for a handle,
      the string without its 7-character label for a watermark handle, each
      character folded. */
  function Normalize(text: string): (u: string)
    requires IsCandidate(text)
    ensures IsToken(u)
    ensures var offset := if StartsWith(text, "@") then 0 else |WatermarkLabel|;
            |u| == |text| - offset
            && forall i :: 0 <= i < |u| ==> u[i] == FoldChar(text[offset + i])
  {
    if StartsWith(text, "@") then Canonical(text) else
      var u := Canonical(text[|WatermarkLabel|..]);
      assert text[|WatermarkLabel|] == '@' by {
        assert text[..|WatermarkPrefix|] == WatermarkPrefix;
      }
      u
  }

  /** The username `clean_text` returns for a list of OCR strings. */
  function Username(texts: seq<string>): (r: Option<string>)
    ensures r.Some? ==> IsToken(r.value)
  {
    if texts == [] then None
    else if IsCandidate(texts[0]) then Some(Normalize(texts[0]))
    else Username(texts[1..])
  }

  /** The loop of `clean_text`, with its two early returns and its implicit
      `None` at the end. */
  method CleanText(texts: seq<string>) returns (r: Option<string>)
    ensures r == Username(texts)
  {
    for i := 0 to |texts|
      invariant Username(texts[i..]) == Username(texts)
    {
      var text := texts[i];
      assert texts[i..][1..] == texts[i + 1..];
      if StartsWith(text, "@") {
        return Some(Canonical(text));
      }
      if StartsWith(text, WatermarkPrefix) {
        return Some(Canonical(text[|WatermarkLabel|..]));
      }
    }
    assert texts[|texts|..] == [];
    return None;
  }

  /** The result is the token of the first candidate; the strings before it
      are skipped. */
  lemma {:induction false} UsernameIsFirstCandidate(texts: seq<string>, i: nat)
    requires i < |texts| && IsCandidate(texts[i])
    requires forall j :: 0 <= j < i ==> !IsCandidate(texts[j])
    ensures Username(texts) == Some(Normalize(texts[i]))
  {
    if i > 0 {
      UsernameIsFirstCandidate(texts[1..], i - 1);
    }
  }

  /** `None` exactly when no string is a candidate. */
  lemma {:induction false} UsernameNoneIff(texts: seq<string>)
    ensures Username(texts).None? <==> forall i :: 0 <= i < |texts| ==> !IsCandidate(texts[i])
  {
    if texts != [] && !IsCandidate(texts[0]) {
      UsernameNoneIff(texts[1..]);
      assert forall i :: 1 <= i < |texts| ==> texts[i] == texts[1..][i - 1];
    }
  }

  /** Once a candidate has been seen, later strings are never consulted. */
  lemma {:induction false} UsernameIgnoresLater(texts: seq<string>, later: seq<string>)
    requires exists i :: 0 <= i < |texts| && IsCandidate(texts[i])
    ensures Username(texts + later) == Username(texts)
  {
    assert (texts + later)[0] == texts[0];
    if !IsCandidate(texts[0]) {
      assert (texts + later)[1..] == texts[1..] + later;
      var i :| 0 <= i < |texts| && IsCandidate(texts[i]);
      assert texts[1..][i - 1] == texts[i];
      UsernameIgnoresLater(texts[1..], later);
    }
  }

  /** A handle normalises to the string of its folded characters. */
  lemma NormalizeHandleFolds(t: string, u: string)
    requires StartsWith(t, "@") && |u| == |t|
    requires forall i :: 0 <= i < |t| ==> u[i] == FoldChar(t[i])
    ensures IsCandidate(t) && Normalize(t) == u
  {
    var v := Normalize(t);
    assert forall i :: 0 <= i < |t| ==> v[i] == u[i];
  }

  /** A handle keeps its characters, folded to lower case. */
  lemma NormalizeHandleExample()
    ensures Normalize("@User_Name") == "@user_name"
  {
    NormalizeHandleFolds("@User_Name", "@user_name");
  }

  /** A watermark handle loses its label, and its space becomes `_`. */
  lemma NormalizeWatermarkExample()
    ensures Normalize("TikTok @User Name") == "@user_name"
  {
  }

  /** A token is a candidate and normalises to itself, so normalising a
      returned username again changes nothing. */
  lemma NormalizeToken(u: string)
    requires IsToken(u)
    ensures IsCandidate(u) && Normalize(u) == u
  {
    assert u[..1] == "@";
    var v := Normalize(u);
    assert forall i :: 0 <= i < |u| ==> v[i] == u[i];
  }

  /** A handle already in canonical form is its own normalisation. */
  lemma NormalizeCanonicalExample()
    ensures Normalize("@jane.doe99") == "@jane.doe99"
  {
    NormalizeToken("@jane.doe99");
  }

  /** A non-candidate before a handle is skipped. */
  lemma UsernameSkipExample()
    ensures Username(["random text", "@jane.doe99"]) == Some("@jane.doe99")
  {
    var texts := ["random text", "@jane.doe99"];
    assert texts[1][..1] == "@";
    assert texts[0][..1][0] != '@' && texts[0][..8][0] != 'T';
    assert !IsCandidate(texts[0]);
    UsernameIsFirstCandidate(texts, 1);
    NormalizeCanonicalExample();
  }

  /** A list without a candidate gives `None`. */
  lemma UsernameNoneExample()
    ensures Username(["no username here"]) == None
  {
    var none := ["no username here"];
    assert none[0][..1][0] != '@' && none[0][..8][0] != 'T';
    assert !IsCandidate(none[0]);
    UsernameNoneIff(none);
  }

}
