/**
 * Keeping the export under the prompt's token budget
 * (`check_token_limit_and_offer_trim`, `trim_posts_and_reexport`): measure,
 * compare with the inclusive limit, estimate how many of the oldest posts to
 * drop, ask, keep the newest prefix, and measure once more.
 *
 * `measure(posts)` stands for writing `posts` as indented JSON, reading the
 * file back and counting its tokens; None is the tokenizer being unavailable.
 */
module Budget {
  import opened Wrappers
  import opened Text
  import opened Records
  import opened Sorting

  /** 95% of a 1,000,000-token context. */
  const TokenLimit := 950000

  /** A measured count fits the budget; the boundary itself fits. */
  predicate WithinLimit(tokens: nat) {
    tokens <= TokenLimit
  }

  datatype Estimate = Estimate(excess: nat, average: nat, remove: nat, keep: int)

  /**
   * Lines 56-59 for an over-limit count. `excess / avg * 1.1` is computed
   * exactly as the floor of 11·excess / (10·avg). None where Python raises
   * ZeroDivisionError: no posts, or fewer tokens than posts (average 0).
   */
  function TrimEstimate(tokens: nat, count: nat): (e: Option<Estimate>)
    requires tokens > TokenLimit
    ensures e.None? <==> count == 0 || tokens < count
    ensures e.Some? ==>
              && e.value.excess == tokens - TokenLimit > 0
              && e.value.keep == count - e.value.remove
  {
    if count == 0 then None
    else
      var average := tokens / count;
      if average == 0 then
        ZeroQuotient(tokens, count);
        None
      else
        DivBounds(tokens, count);
        MulMonotone(1, average, count);
        var excess := tokens - TokenLimit;
        DivNonNegative(11 * excess, 10 * average);
        var remove := (11 * excess) / (10 * average);
        Some(Estimate(excess, average, remove, count - remove))
  }

  /**
   * The two floor divisions of the estimate: `avg` is the largest whole
   * number of tokens per post, `remove` the largest whole number of posts
   * of `avg` tokens within 1.1 times the excess.
   */
  lemma TrimEstimateBrackets(tokens: nat, count: nat)
    requires tokens > TokenLimit && TrimEstimate(tokens, count).Some?
    ensures var e := TrimEstimate(tokens, count).value;
      && e.average > 0
      && e.average * count <= tokens < e.average * count + count
      && e.remove * (10 * e.average) <= 11 * e.excess < e.remove * (10 * e.average) + 10 * e.average
  {
    var e := TrimEstimate(tokens, count).value;
    DivBounds(tokens, count);
    MulMonotone(1, e.average, count);
    DivBounds(11 * e.excess, 10 * e.average);
  }

  /** Floor division gives 0 exactly when the dividend is below the divisor. */
  lemma ZeroQuotient(a: nat, b: nat)
    requires b > 0 && a / b == 0
    ensures a < b
  {
    DivBounds(a, b);
  }

  lemma DivNonNegative(a: nat, b: nat)
    requires b > 0
    ensures a / b >= 0
  {
    DivBounds(a, b);
  }

  /** Floor division brackets its dividend. */
  lemma DivBounds(a: nat, b: nat)
    requires b > 0
    ensures (a / b) * b <= a < (a / b) * b + b
  {
    assert a == (a / b) * b + a % b;
  }

  /** 1,000,000 tokens over 10,000 posts: drop 550, keep 9450. */
  lemma EstimateExample()
    ensures TrimEstimate(1000000, 10000) == Some(Estimate(50000, 100, 550, 9450))
  {
  }

  /**
   * The estimate never asks to keep more posts than there are, and asks to
   * keep a negative number exactly when more than about ten times the
   * limit's worth of tokens must go.
   */
  lemma {:induction false} EstimateKeepBounds(tokens: nat, count: nat)
    requires tokens > TokenLimit
    requires TrimEstimate(tokens, count).Some?
    ensures TrimEstimate(tokens, count).value.keep <= count
    ensures TrimEstimate(tokens, count).value.keep < 0
            <==> 11 * (tokens - TokenLimit) >= (count + 1) * (10 * (tokens / count))
  {
    var e := TrimEstimate(tokens, count).value;
    TrimEstimateBrackets(tokens, count);
    var d := 10 * e.average;
    if e.keep < 0 {
      MulMonotone(count + 1, e.remove, d);
    } else {
      MulMonotone(e.remove + 1, count + 1, d);
      assert (e.remove + 1) * d == e.remove * d + d;
    }
  }

  lemma MulMonotone(b: nat, c: nat, a: nat)
    requires b <= c
    ensures b * a <= c * a
  {
  }

  /** Python's `s[:k]`: a negative `k` counts from the end. */
  function PySlicePrefix<T>(s: seq<T>, k: int): (r: seq<T>)
    ensures |r| <= |s| && r == s[..|r|]
    ensures k >= 0 ==> |r| == if k <= |s| then k else |s|
    ensures k < 0 ==> |r| == if |s| + k >= 0 then |s| + k else 0
  {
    if k >= 0 then (if k <= |s| then s[..k] else s)
    else if |s| + k >= 0 then s[..|s| + k]
    else []
  }

  /**
   * The trim as written (line 85) with a negative `posts_to_keep`: 20,000,000
   * tokens over 10,000 posts estimate 10,477 posts to remove, so the code
   * slices `all_posts[:-477]` and keeps 9,523 posts instead of none.
   */
  lemma NegativeKeepSliceKeepsPosts(posts: seq<Post>)
    requires |posts| == 10000
    ensures TrimEstimate(20000000, 10000) == Some(Estimate(19050000, 2000, 10477, -477))
    ensures |PySlicePrefix(posts, -477)| == 9523
  {
  }

  /**
   * The trim as intended: the first `keep` posts, none when the estimate
   * asks to keep a negative number. Of a newest-first list this keeps the
   * newest posts and drops the oldest.
   */
  function NewestPosts(posts: seq<Post>, keep: int): (kept: seq<Post>)
    ensures |kept| == if keep < 0 then 0 else if keep <= |posts| then keep else |posts|
    ensures kept == posts[..|kept|]
    ensures NewestFirst(posts) ==>
              forall i, j :: 0 <= i < |kept| <= j < |posts| ==> !Older(kept[i], posts[j])
  {
    if keep < 0 then [] else if keep <= |posts| then posts[..keep] else posts
  }

  /** Wherever the estimate is not negative, the intended trim is the code's slice. */
  lemma NewestPostsIsSlice(posts: seq<Post>, keep: int)
    requires keep >= 0
    ensures NewestPosts(posts, keep) == PySlicePrefix(posts, keep)
  {
  }

  /** What a user's answer means once stripped and lower-cased. */
  datatype Choice = TrimChoice | KeepChoice

  function Recognise(answer: string): (c: Option<Choice>)
    ensures c == Some(TrimChoice) <==> Lower(Strip(answer)) in {"y", "yes"}
    ensures c == Some(KeepChoice) <==> Lower(Strip(answer)) in {"n", "no"}
  {
    var a := Lower(Strip(answer));
    if a == "y" || a == "yes" then Some(TrimChoice)
    else if a == "n" || a == "no" then Some(KeepChoice)
    else None
  }

  /**
   * The `while True` prompt (lines 68-76) over the answers typed, in order:
   * the first recognised answer decides; None when the input ends first
   * (`input()` then raises EOFError).
   */
  method AskToTrim(answers: seq<string>) returns (c: Option<Choice>)
    ensures c.None? <==> forall i :: 0 <= i < |answers| ==> Recognise(answers[i]).None?
    ensures c.Some? ==>
              exists i :: 0 <= i < |answers| && c == Recognise(answers[i])
                && forall j :: 0 <= j < i ==> Recognise(answers[j]).None?
  {
    var i := 0;
    while i < |answers|
      invariant 0 <= i <= |answers|
      invariant forall j :: 0 <= j < i ==> Recognise(answers[j]).None?
    {
      var choice := Recognise(answers[i]);
      if choice.Some? {
        return choice;
      }
      i := i + 1;
    }
    return None;
  }

  /** The report after trimming: `if trimmed_tokens:` skips a count that is missing or 0. */
  datatype Recheck = NotReported | FitsLimit | StillTooLarge

  function RecheckTrimmed(tokens: Option<nat>): (r: Recheck)
    ensures r == NotReported <==> tokens.None? || tokens.value == 0
    ensures r == FitsLimit <==> tokens.Some? && 0 < tokens.value && WithinLimit(tokens.value)
  {
    if tokens.None? || tokens.value == 0 then NotReported
    else if WithinLimit(tokens.value) then FitsLimit
    else StillTooLarge
  }

  datatype BudgetOutcome =
    | Unmeasured                              // original file, no analysis
    | Within(tokens: nat)                     // original file
    | ZeroAverage                             // ZeroDivisionError
    | InputEnded(estimate: Estimate)          // EOFError at the prompt
    | Declined(estimate: Estimate)            // original file kept
    | Trimmed(estimate: Estimate, kept: seq<Post>, recheck: Recheck)  // trimmed file

  /**
   * What the budget check decides for `posts`, given the token count
   * `measure` gives and the typed `answers`: unmeasured, within the limit,
   * no estimate, or the estimate followed by the first recognised answer,
   * a trim to the newest posts and one recount.
   */
  predicate BudgetDecided(posts: seq<Post>, measure: seq<Post> -> Option<nat>, answers: seq<string>, o: BudgetOutcome) {
    && (measure(posts).None? <==> o.Unmeasured?)
    && (o.Within? <==> measure(posts).Some? && WithinLimit(measure(posts).value))
    && (o.Within? ==> o.tokens == measure(posts).value)
    && (o.ZeroAverage? <==>
          measure(posts).Some? && !WithinLimit(measure(posts).value)
          && TrimEstimate(measure(posts).value, |posts|).None?)
    && (o.InputEnded? || o.Declined? || o.Trimmed? ==>
          measure(posts).Some? && !WithinLimit(measure(posts).value)
          && TrimEstimate(measure(posts).value, |posts|) == Some(o.estimate))
    && (o.InputEnded? ==> forall i :: 0 <= i < |answers| ==> Recognise(answers[i]).None?)
    && (o.Declined? || o.Trimmed? ==>
          exists i :: 0 <= i < |answers|
            && Recognise(answers[i]) == Some(if o.Trimmed? then TrimChoice else KeepChoice)
            && forall j :: 0 <= j < i ==> Recognise(answers[j]).None?)
    && (o.Trimmed? ==>
          o.kept == NewestPosts(posts, o.estimate.keep) && o.recheck == RecheckTrimmed(measure(o.kept)))
  }

  /**
   * `check_token_limit_and_offer_trim` followed, on "yes", by
   * `trim_posts_and_reexport`: one trim at most, measured once more and
   * never trimmed again.
   */
  method CheckTokenLimitAndOfferTrim(posts: seq<Post>, measure: seq<Post> -> Option<nat>, answers: seq<string>)
    returns (o: BudgetOutcome)
    ensures BudgetDecided(posts, measure, answers, o)
  {
    var tokenCount := measure(posts);
    if tokenCount.None? {
      return Unmeasured;
    }
    if WithinLimit(tokenCount.value) {
      return Within(tokenCount.value);
    }
    var estimate := TrimEstimate(tokenCount.value, |posts|);
    if estimate.None? {
      return ZeroAverage;
    }
    var choice := AskToTrim(answers);
    if choice.None? {
      return InputEnded(estimate.value);
    }
    if choice.value == KeepChoice {
      return Declined(estimate.value);
    }
    var kept := NewestPosts(posts, estimate.value.keep);
    var trimmedTokens := measure(kept);
    return Trimmed(estimate.value, kept, RecheckTrimmed(trimmedTokens));
  }
}
