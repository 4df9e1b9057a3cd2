/**
 * The reputation rule that reputation.py and app.py both apply to a user
 * after a flagged comment, stated on the three fields it reads and writes:
 * every flagged comment is counted, every second one costs a point (never
 * below 0), and a score below 5 sets the ban flag, which nothing clears.
 */
module Ledger {
  import opened Wrappers
  import opened Store

  const InitialScore := 10
  const BanThreshold := 5

  datatype Standing = Standing(score: int, badComments: int, banned: bool)

  /** The standing of a freshly signed-up account: score 10, no bad comments, not banned. */
  const Fresh := Standing(InitialScore, 0, false)

  /** The reputation fields of a user record as the code reads them: a missing score counts as 10, a missing count as 0, a missing ban flag as not banned. */
  function StandingOf(rec: Record): Standing {
    Standing(IntField(rec, ScoreKey, InitialScore), IntField(rec, BadCountKey, 0), BoolField(rec, BannedKey, false))
  }

  /** One flagged comment. */
  function Step(s: Standing): (t: Standing)
    ensures t.badComments == s.badComments + 1
    ensures t.score != s.score ==> t.badComments % 2 == 0
    ensures s.score >= 0 ==> 0 <= t.score <= s.score
    ensures t.score >= s.score - 1
    ensures s.banned ==> t.banned
    ensures t.banned && !s.banned ==> t.score < BanThreshold
  {
    var count := s.badComments + 1;
    if count % 2 == 0 then
      var newScore := Max(0, s.score - 1);
      Standing(newScore, count, s.banned || newScore < BanThreshold)
    else
      Standing(s.score, count, s.banned)
  }

  /** The standing after `k` flagged comments. */
  function Iterate(s: Standing, k: nat): Standing
    decreases k
  {
    if k == 0 then s else Step(Iterate(s, k - 1))
  }

  /** How many of the counts `c + 1` .. `c + k` are even, that is, how many points `k` more flags cost. */
  function Penalties(c: int, k: nat): int {
    (c + k) / 2 - c / 2
  }

  /** The closed form of `k` flags from any standing with a non-negative score. */
  lemma {:induction false} ClosedForm(s: Standing, k: nat)
    requires s.score >= 0
    ensures var p := Penalties(s.badComments, k);
            var score := Max(0, s.score - p);
            Iterate(s, k) == Standing(score, s.badComments + k, s.banned || (p > 0 && score < BanThreshold))
    decreases k
  {
    if k > 0 {
      ClosedForm(s, k - 1);
      var c := s.badComments;
      assert Iterate(s, k) == Step(Iterate(s, k - 1));
      PenaltiesStep(c, k);
    }
  }

  /** One more flag costs a point exactly when it brings the count to an even number. */
  lemma PenaltiesStep(c: int, k: nat)
    requires k > 0
    ensures Penalties(c, k) == Penalties(c, k - 1) + (if (c + k) % 2 == 0 then 1 else 0)
  {
    if (c + k) % 2 == 0 {
      assert (c + k) / 2 == (c + k - 1) / 2 + 1;
    } else {
      assert (c + k) / 2 == (c + k - 1) / 2;
    }
  }

  /** From a fresh account, `k` flags leave count `k`, score `max(0, 10 - k/2)`, and a ban exactly from the twelfth flag on. */
  lemma FreshAccount(k: nat)
    ensures Iterate(Fresh, k) == Standing(Max(0, InitialScore - k / 2), k, k >= 12)
  {
    ClosedForm(Fresh, k);
  }

  lemma FreshAccountExamples()
    ensures Iterate(Fresh, 4) == Standing(8, 4, false)
    ensures Iterate(Fresh, 10) == Standing(5, 10, false)
    ensures Iterate(Fresh, 12) == Standing(4, 12, true)
  {
    FreshAccount(4);
    FreshAccount(10);
    FreshAccount(12);
  }

  /** Every two flags cost exactly one point, whatever the count was before, until the score reaches 0. */
  lemma TwoFlagsOnePoint(s: Standing, m: nat)
    requires s.score >= 0
    ensures Iterate(s, 2 * m).score == Max(0, s.score - m)
    ensures Iterate(s, 2 * m).badComments == s.badComments + 2 * m
  {
    ClosedForm(s, 2 * m);
    assert (s.badComments + 2 * m) / 2 == s.badComments / 2 + m;
  }

  /** Once banned, always banned; and the score never rises. */
  lemma {:induction false} Monotone(s: Standing, k: nat)
    requires s.score >= 0
    ensures s.banned ==> Iterate(s, k).banned
    ensures 0 <= Iterate(s, k).score <= s.score
    decreases k
  {
    if k > 0 {
      Monotone(s, k - 1);
    }
  }
}
