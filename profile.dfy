/**
 * frontend/src/app/profile/page.tsx: the reputation bands of the profile
 * page, on the stored 0-10 score, and the trend arrow. Loading the account
 * and rendering are outside the model.
 */
module Profile {
  import opened Ledger

  /** `getReputationColor`: emerald from 8, amber from 5, red below. */
  function ScoreColor(score: int): (c: string)
    ensures c in ["text-emerald-400", "text-amber-400", "text-red-400"]
    ensures c == "text-emerald-400" <==> score >= 8
    ensures c == "text-red-400" <==> score < 5
  {
    if score >= 8 then "text-emerald-400"
    else if score >= 5 then "text-amber-400"
    else "text-red-400"
  }

  /** `getReputationBg`: the progress bar's colour, emerald from 8, amber from 5, red below. */
  function ScoreBg(score: int): (c: string)
    ensures c in ["bg-emerald-500", "bg-amber-500", "bg-red-500"]
  {
    if score >= 8 then "bg-emerald-500"
    else if score >= 5 then "bg-amber-500"
    else "bg-red-500"
  }

  /** The bar and the number always have the same colour band. */
  lemma BgMatchesColor(score: int)
    ensures ScoreBg(score) == "bg-emerald-500" <==> ScoreColor(score) == "text-emerald-400"
    ensures ScoreBg(score) == "bg-amber-500" <==> ScoreColor(score) == "text-amber-400"
    ensures ScoreBg(score) == "bg-red-500" <==> ScoreColor(score) == "text-red-400"
  {
  }

  /** `getReputationStatus`: Excellent from 8, Good from 6, Fair from 4, At Risk below. */
  function Status(score: int): (s: string)
    ensures s in ["Excellent", "Good", "Fair", "At Risk"]
    ensures s == "Excellent" <==> score >= 8
    ensures s == "At Risk" <==> score < 4
  {
    if score >= 8 then "Excellent"
    else if score >= 6 then "Good"
    else if score >= 4 then "Fair"
    else "At Risk"
  }

  /** The trend arrow points up exactly when the number is not shown in red. */
  function TrendUp(score: int): (up: bool)
    ensures up <==> ScoreColor(score) != "text-red-400"
  {
    score >= 5
  }

  /** For an account that started fresh, "below 5 points" and "banned" are the same thing after any number of flagged comments. */
  lemma RestrictedBelowFive(k: nat)
    ensures Iterate(Fresh, k).banned <==> Iterate(Fresh, k).score < BanThreshold
  {
    FreshAccount(k);
  }

  /** So the arrow points up exactly for the accounts that are not banned. */
  lemma TrendMatchesBan(k: nat)
    ensures TrendUp(Iterate(Fresh, k).score) <==> !Iterate(Fresh, k).banned
  {
    RestrictedBelowFive(k);
  }

  /** An account at risk is banned, but a banned account with 4 points is still called Fair. */
  lemma StatusOfBannedAccounts(k: nat)
    ensures Status(Iterate(Fresh, k).score) == "At Risk" ==> Iterate(Fresh, k).banned
    ensures Iterate(Fresh, 12).banned && Status(Iterate(Fresh, 12).score) == "Fair"
  {
    RestrictedBelowFive(k);
    FreshAccount(12);
  }
}
