/**
 * `generateTitleFromQuestion` (app/dashboard/page.tsx): the label a fresh
 * session takes from its first question.
 */
module TitleDerivation {
  import opened Text

  /** The alternatives of the leading-phrase pattern, in the order the regular expression tries them. */
  const Phrases: seq<string> :=
    ["should i", "can i", "how do i", "what should i", "when should i", "where should i", "why should i"]

  const MaxTitleLength := 50
  const Ellipsis := "..."

  /**
   * `s` begins with the lower-case phrase `p`, ignoring case. The pattern is
   * ASCII and matched without the `u` flag, under which no non-ASCII code
   * point folds onto an ASCII letter, so ASCII folding is exact here.
   */
  predicate StartsWithIgnoreCase(s: string, p: string) {
    |p| <= |s| && forall i :: 0 <= i < |p| ==> LowerChar(s[i]) == p[i]
  }

  /** `spelled` is phrase `k` written in any mix of upper and lower case. */
  predicate SpellsPhrase(spelled: string, k: nat) {
    k < |Phrases| && |spelled| == |Phrases[k]|
    && forall i :: 0 <= i < |spelled| ==> LowerChar(spelled[i]) == Phrases[k][i]
  }

  /** Removes the first alternative of `ps` that matches at index 0, if any. */
  function StripFirstMatching(s: string, ps: seq<string>): string {
    if ps == [] then s
    else if StartsWithIgnoreCase(s, ps[0]) then s[|ps[0]|..]
    else StripFirstMatching(s, ps[1..])
  }

  /** Two phrases matching the same text are related by prefix. */
  lemma MatchesArePrefixes(s: string, p: string, q: string)
    requires StartsWithIgnoreCase(s, p) && StartsWithIgnoreCase(s, q) && |p| <= |q|
    ensures IsPrefix(p, q)
  {
    assert forall i :: 0 <= i < |p| ==> q[..|p|][i] == p[i];
  }

  /** No phrase is a prefix of another, so at most one can match. */
  lemma PhrasesPrefixFree(j: nat, k: nat)
    requires j < |Phrases| && k < |Phrases| && IsPrefix(Phrases[j], Phrases[k])
    ensures j == k
  {
    var p, q := Phrases[j], Phrases[k];
    assert 5 <= |p|;
    assert q[..|p|][0] == q[0] && q[..|p|][2] == q[2] && q[..|p|][3] == q[3];
    assert (p[0], p[2], p[3]) == (q[0], q[2], q[3]);
  }

  /** When no alternative matches, nothing is removed. */
  lemma {:induction false} StripFirstMatchingNone(s: string, ps: seq<string>)
    requires forall k :: 0 <= k < |ps| ==> !StartsWithIgnoreCase(s, ps[k])
    ensures StripFirstMatching(s, ps) == s
  {
    if ps != [] {
      assert !StartsWithIgnoreCase(s, ps[0]);
      assert forall k :: 0 <= k < |ps[1..]| ==> ps[1..][k] == ps[k + 1];
      StripFirstMatchingNone(s, ps[1..]);
    }
  }

  /** The first alternative that matches is the one removed. */
  lemma {:induction false} StripFirstMatchingAt(s: string, ps: seq<string>, k: nat)
    requires k < |ps| && StartsWithIgnoreCase(s, ps[k])
    requires forall j :: 0 <= j < k ==> !StartsWithIgnoreCase(s, ps[j])
    ensures StripFirstMatching(s, ps) == s[|ps[k]|..]
  {
    if k > 0 {
      assert !StartsWithIgnoreCase(s, ps[0]);
      assert ps[1..][k - 1] == ps[k];
      assert forall j :: 0 <= j < k - 1 ==> ps[1..][j] == ps[j + 1];
      StripFirstMatchingAt(s, ps[1..], k - 1);
    }
  }

  /** Whichever phrase matches, none before it in the alternation order does. */
  lemma MatchIsFirst(s: string, k: nat)
    requires k < |Phrases| && StartsWithIgnoreCase(s, Phrases[k])
    ensures forall j :: 0 <= j < k ==> !StartsWithIgnoreCase(s, Phrases[j])
  {
    forall j | 0 <= j < k && StartsWithIgnoreCase(s, Phrases[j])
      ensures false
    {
      if |Phrases[j]| <= |Phrases[k]| {
        MatchesArePrefixes(s, Phrases[j], Phrases[k]);
        PhrasesPrefixFree(j, k);
      } else {
        MatchesArePrefixes(s, Phrases[k], Phrases[j]);
        PhrasesPrefixFree(k, j);
      }
    }
  }

  /**
   * `.replace(/^(should i|can i|...)/i, "")`: a matching phrase is removed
   * once, only at index 0; otherwise the text is unchanged.
   */
  function StripLeadingPhrase(s: string): (r: string)
    ensures (forall k :: 0 <= k < |Phrases| ==> !StartsWithIgnoreCase(s, Phrases[k])) ==> r == s
    ensures forall k :: 0 <= k < |Phrases| && StartsWithIgnoreCase(s, Phrases[k]) ==> r == s[|Phrases[k]|..]
  {
    assert (forall k :: 0 <= k < |Phrases| ==> !StartsWithIgnoreCase(s, Phrases[k]))
      ==> StripFirstMatching(s, Phrases) == s by {
      if forall k :: 0 <= k < |Phrases| ==> !StartsWithIgnoreCase(s, Phrases[k]) {
        StripFirstMatchingNone(s, Phrases);
      }
    }
    assert forall k :: 0 <= k < |Phrases| && StartsWithIgnoreCase(s, Phrases[k]) ==>
      StripFirstMatching(s, Phrases) == s[|Phrases[k]|..] by {
      forall k | 0 <= k < |Phrases| && StartsWithIgnoreCase(s, Phrases[k])
        ensures StripFirstMatching(s, Phrases) == s[|Phrases[k]|..]
      {
        MatchIsFirst(s, k);
        StripFirstMatchingAt(s, Phrases, k);
      }
    }
    StripFirstMatching(s, Phrases)
  }

  /** `.replace(/\?+$/, "")`: drops the whole run of `?` at the very end, and nothing else. */
  function StripTrailingQuestionMarks(s: string): (r: string)
    ensures IsPrefix(r, s)
    ensures forall i :: |r| <= i < |s| ==> s[i] == '?'
    ensures r == [] || r[|r| - 1] != '?'
  {
    if |s| > 0 && s[|s| - 1] == '?' then StripTrailingQuestionMarks(s[..|s| - 1]) else s
  }

  /** `s.charAt(0).toUpperCase() + s.slice(1)`. */
  function Capitalize(s: string): string {
    if s == [] then [] else [UpperChar(s[0])] + s[1..]
  }

  /** `t.length > 50 ? t.substring(0, 50) + "..." : t`. */
  function Truncate(t: string): string {
    if |t| > MaxTitleLength then t[..MaxTitleLength] + Ellipsis else t
  }

  /** The question with its leading phrase and trailing question marks removed, then trimmed. */
  function Clean(question: string): string {
    Trim(StripTrailingQuestionMarks(StripLeadingPhrase(question)))
  }

  /** What capitalising and truncating do to an already cleaned, trimmed text. */
  lemma CapitalizeTruncate(c: string)
    requires IsTrimmed(c)
    ensures var r := Truncate(Capitalize(c));
      && |r| <= MaxTitleLength + |Ellipsis|
      && (r == [] <==> c == [])
      && (c != [] ==> r[0] == UpperChar(c[0]) && !IsWhitespace(r[0]))
      && (|c| <= MaxTitleLength ==> |r| == |c| && (c != [] ==> r[1..] == c[1..]))
      && (|c| > MaxTitleLength ==>
            |r| == MaxTitleLength + |Ellipsis| && r[1..MaxTitleLength] == c[1..MaxTitleLength]
            && r[MaxTitleLength..] == Ellipsis)
  {
    if c != [] {
      UpperCharKeepsNonWhitespace(c[0]);
    }
  }

  /**
   * The derived title is the cleaned question with its first code point
   * upper-cased, cut to 50 code points plus an ellipsis when longer. It is
   * empty exactly when nothing is left after cleaning.
   */
  function GenerateTitle(question: string): (r: string)
    ensures |r| <= MaxTitleLength + |Ellipsis|
    ensures r == [] <==> Clean(question) == []
    ensures var c := Clean(question);
      c != [] ==> r[0] == UpperChar(c[0]) && !IsWhitespace(r[0])
    ensures var c := Clean(question);
      |c| <= MaxTitleLength ==> |r| == |c| && (c != [] ==> r[1..] == c[1..])
    ensures var c := Clean(question);
      |c| > MaxTitleLength ==>
        (|r| == MaxTitleLength + |Ellipsis| && r[1..MaxTitleLength] == c[1..MaxTitleLength]
         && r[MaxTitleLength..] == Ellipsis)
  {
    var c := Clean(question);
    CapitalizeTruncate(c);
    Truncate(Capitalize(c))
  }

  /** Any text behind a spelling of phrase `k`, in whatever case, is what the strip leaves. */
  lemma StripPhraseFrom(spelled: string, rest: string, k: nat)
    requires SpellsPhrase(spelled, k)
    ensures StripLeadingPhrase(spelled + rest) == rest
  {
    var s := spelled + rest;
    assert forall i :: 0 <= i < |spelled| ==> s[i] == spelled[i];
    assert StartsWithIgnoreCase(s, Phrases[k]);
    assert s[|Phrases[k]|..] == rest;
  }

  /**
   * The trailing-run strip is characterised by what it keeps: text that does
   * not end in `?`, followed by any number of `?`, strips back to that text.
   */
  lemma {:induction false} StripTrailingFrom(kept: string, marks: string)
    requires kept == [] || kept[|kept| - 1] != '?'
    requires forall i :: 0 <= i < |marks| ==> marks[i] == '?'
    ensures StripTrailingQuestionMarks(kept + marks) == kept
    decreases |marks|
  {
    if marks == [] {
      assert kept + marks == kept;
    } else {
      var shorter := marks[..|marks| - 1];
      assert (kept + marks)[..|kept + marks| - 1] == kept + shorter;
      StripTrailingFrom(kept, shorter);
    }
  }

  /**
   * The whole pipeline on a question of the shape phrase, whitespace, body,
   * whitespace, question marks: the title is the body, capitalised. For
   * "Should I change careers?" that is "Change careers" (`ChangeCareersExample`).
   */
  lemma TitleOfPhrasedQuestion(question: string, spelled: string, pre: string, body: string, post: string, marks: string, k: nat)
    requires question == spelled + pre + body + post + marks
    requires SpellsPhrase(spelled, k)
    requires AllWhitespace(pre) && AllWhitespace(post) && IsTrimmed(body) && |body| <= MaxTitleLength
    requires forall i :: 0 <= i < |marks| ==> marks[i] == '?'
    requires var kept := pre + body + post; kept == [] || kept[|kept| - 1] != '?'
    ensures GenerateTitle(question) == Capitalize(body)
  {
    var kept := pre + body + post;
    assert question == spelled + (kept + marks);
    StripPhraseFrom(spelled, kept + marks, k);
    StripTrailingFrom(kept, marks);
    TrimOfPadded(pre, body, post);
    assert StripLeadingPhrase(question) == kept + marks;
    assert Clean(question) == Trim(kept);
  }

  lemma ShouldISpellsPhrase()
    ensures SpellsPhrase("Should I", 0)
  {
  }

  lemma CapitalizeChangeCareers()
    ensures Capitalize("change careers") == "Change careers"
  {
    assert "change careers"[1..] == "hange careers";
  }

  /** "Should I change careers?" is titled "Change careers". */
  lemma ChangeCareersExample(question: string, title: string)
    requires question == "Should I change careers?" && title == "Change careers"
    ensures GenerateTitle(question) == title
  {
    var spelled, pre, body, marks := "Should I", " ", "change careers", "?";
    assert question == spelled + pre + body + [] + marks;
    ShouldISpellsPhrase();
    TitleOfPhrasedQuestion(question, spelled, pre, body, [], marks, 0);
    CapitalizeChangeCareers();
  }

  /**
   * A question that is only a phrase and question marks ("Should I?") yields
   * an empty title: the title is not guaranteed to be non-empty.
   */
  lemma EmptyTitleFromPhraseAndMarks(spelled: string, marks: string, k: nat)
    requires SpellsPhrase(spelled, k)
    requires forall i :: 0 <= i < |marks| ==> marks[i] == '?'
    ensures GenerateTitle(spelled + marks) == []
  {
    TitleOfPhrasedQuestion(spelled + marks, spelled, [], [], [], marks, k);
  }

  /**
   * Question marks followed by whitespace are not at the very end when the
   * run is stripped, and trimming happens afterwards, so "Should I go? "
   * keeps its question mark: the title can end in `?`.
   */
  lemma QuestionMarkBeforeWhitespaceSurvives(spelled: string, pre: string, body: string, post: string, k: nat)
    requires SpellsPhrase(spelled, k)
    requires AllWhitespace(pre) && IsTrimmed(body) && |body| <= MaxTitleLength
    requires body != [] && body[|body| - 1] == '?'
    requires post != [] && AllWhitespace(post)
    ensures var title := GenerateTitle(spelled + pre + body + post);
      title != [] && title[|title| - 1] == '?'
  {
    var kept := pre + body + post;
    assert kept[|kept| - 1] == post[|post| - 1];
    TitleOfPhrasedQuestion(spelled + pre + body + post, spelled, pre, body, post, [], k);
  }

  /** Case folding after upper-casing agrees with case folding alone. */
  lemma LowerUpper(c: char)
    ensures LowerChar(UpperChar(c)) == LowerChar(c)
  {
  }

  /** Capitalising cannot stop a text from starting with a phrase. */
  lemma CapitalizeKeepsPhrase(body: string, j: nat)
    requires j < |Phrases| && StartsWithIgnoreCase(body, Phrases[j])
    ensures StartsWithIgnoreCase(Capitalize(body), Phrases[j])
  {
    var p := Phrases[j];
    assert |p| >= 1;
    var t := Capitalize(body);
    forall i | 0 <= i < |p|
      ensures LowerChar(t[i]) == p[i]
    {
      if i == 0 {
        LowerUpper(body[0]);
      }
    }
  }

  /**
   * The phrase is removed at most once: in "Should I should I go" the second
   * phrase is kept, so the title still starts with a phrase of the set.
   */
  lemma PhraseRemovedOnlyOnce(spelled: string, pre: string, body: string, k: nat, j: nat)
    requires SpellsPhrase(spelled, k)
    requires AllWhitespace(pre) && IsTrimmed(body) && |body| <= MaxTitleLength
    requires body == [] || body[|body| - 1] != '?'
    requires j < |Phrases| && StartsWithIgnoreCase(body, Phrases[j])
    ensures StartsWithIgnoreCase(GenerateTitle(spelled + pre + body), Phrases[j])
  {
    TitleOfPhrasedQuestion(spelled + pre + body, spelled, pre, body, [], [], k);
    CapitalizeKeepsPhrase(body, j);
  }

  /** The pattern has no word boundary: "should i" is cut out of "should items". */
  lemma NoWordBoundaryExample()
    ensures StripLeadingPhrase("should items") == "tems"
  {
    assert "should items" == "should i" + "tems";
    StripPhraseFrom("should i", "tems", 0);
  }

  /** The pattern is anchored at index 0: a leading space blocks it, as in " should i go". */
  lemma LeadingSpaceBlocksStrip(s: string)
    requires s != [] && s[0] == ' '
    ensures StripLeadingPhrase(s) == s
  {
    forall k | 0 <= k < |Phrases|
      ensures !StartsWithIgnoreCase(s, Phrases[k])
    {
      assert Phrases[k][0] != ' ';
    }
  }
}
