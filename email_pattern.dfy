/**
 * The forms' email check, `/\S+@\S+\.\S+/.test(email)`: the pattern is not anchored, so it
 * holds when some part of the string is non-blank text, `@`, non-blank text, `.`, non-blank
 * text.
 */
module EmailPattern {
  import opened Strings
  import opened UserModel

  /** `\S`. */
  predicate NonBlank(c: char) {
    !IsWhitespace(c)
  }

  /** The `@` at `p` and the `.` at `q` have a non-blank character before `p`, only non-blank
      characters (at least one) between them, and a non-blank character after `q`. */
  predicate MatchAt(s: string, p: int, q: int) {
    && 1 <= p && p + 2 <= q && q + 1 < |s| && s[p] == '@' && s[q] == '.'
    && NonBlank(s[p - 1]) && NonBlank(s[q + 1])
    && forall k :: p < k < q ==> NonBlank(s[k])
  }

  predicate Matches(s: string) {
    exists p, q :: 0 <= p < q < |s| && MatchAt(s, p, q)
  }

  /** The search is unanchored: text around a match does not undo it. */
  lemma MatchSurvivesContext(before: string, s: string, after: string)
    requires Matches(s)
    ensures Matches(before + s + after)
  {
    var p, q :| 0 <= p < q < |s| && MatchAt(s, p, q);
    var t := before + s + after;
    var n := |before|;
    forall k | 0 <= k < |s|
      ensures t[n + k] == s[k]
    {
      assert t[n + k] == (before + s)[n + k];
    }
    assert MatchAt(t, n + p, n + q) by {
      forall k | n + p < k < n + q ensures NonBlank(t[k]) {
        assert t[n + (k - n)] == s[k - n];
      }
    }
  }

  /** A matching string is at least five characters long and holds an `@` and a `.`. */
  lemma MatchShape(s: string)
    requires Matches(s)
    ensures |s| >= 5 && '@' in s && '.' in s
  {
  }

  /** A typical address matches; one with a blank before `@`, or with no `.` after it,
      does not. */
  lemma MatchExamples()
    ensures Matches("a@b.c")
    ensures !Matches("a @b.c")
    ensures !Matches("a@bc")
  {
    assert MatchAt("a@b.c", 1, 3);
    forall p, q ensures !MatchAt("a @b.c", p, q) {
    }
    forall p, q ensures !MatchAt("a@bc", p, q) {
    }
  }

  /** A matching string is never blank, so neither `trim()` nor the `email` setters reduce
      it to the empty string. */
  lemma MatchNotBlank(s: string)
    requires Matches(s)
    ensures Trim(s) != "" && NormaliseEmail(s) != ""
  {
    var p, q :| 0 <= p < q < |s| && MatchAt(s, p, q);
    TrimEmptyIffBlank(s);
    TrimEmptyIffBlank(ToLower(s));
    LowerCharKeepsWhitespace(s[p - 1]);
    assert ToLower(s)[p - 1] == LowerChar(s[p - 1]);
  }
}
