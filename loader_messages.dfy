/**
 * The choice of the loader's start-up banner. The command-line arguments,
 * the loader's version string, the outcome of the random draw and the
 * current month are parameters; the banners' text is left out.
 */
module LoaderMessages {

  datatype Banner = Default | EasterEgg | Christmas | Halloween

  /** A calendar month, as DateTime.Month gives it. */
  type Month = m: int | 1 <= m <= 12 witness 1

  const DefaultMessageFlag: string := "--defaultloadmessage"
  const NoEasterEggFlag: string := "--noeasteregg"
  /** The substring of the version string that always selects the Easter egg. */
  const EasterEggVersion: string := "6.9"

  /** `sub` occurs in `s` at some position (String.Contains, ordinal). */
  predicate ContainsSubstring(s: string, sub: string)
  {
    exists i | 0 <= i <= |s| - |sub| :: OccursAt(s, sub, i)
  }

  predicate OccursAt(s: string, sub: string, i: nat)
    requires i + |sub| <= |s|
  {
    s[i..i + |sub|] == sub
  }

  /** The Easter egg is due: the version matches, or the draw (NextDouble() <= 0.069) hits. */
  predicate EasterEggDue(version: string, drawHits: bool)
  {
    ContainsSubstring(version, EasterEggVersion) || drawHits
  }

  /**
   * The banner to show. `drawHits` is whether Loader.Random.NextDouble() <= 0.069;
   * the draw is only made when DrawsRandom(args, version) holds.
   */
  function GetMessage(args: seq<string>, version: string, drawHits: bool, month: Month): (b: Banner)
    // the flag forcing the default banner wins over everything else
    ensures DefaultMessageFlag in args ==> b == Default
    ensures b == EasterEgg <==>
      DefaultMessageFlag !in args && NoEasterEggFlag !in args && EasterEggDue(version, drawHits)
    ensures b == Christmas <==>
      DefaultMessageFlag !in args && !(NoEasterEggFlag !in args && EasterEggDue(version, drawHits)) && month == 12
    ensures b == Halloween <==>
      DefaultMessageFlag !in args && !(NoEasterEggFlag !in args && EasterEggDue(version, drawHits)) && month == 10
  {
    if DefaultMessageFlag in args then Default
    else if NoEasterEggFlag !in args && (ContainsSubstring(version, EasterEggVersion) || drawHits) then EasterEgg
    else match month
      case 12 => Christmas
      case 10 => Halloween
      case _ => Default
  }

  /** The random number generator is consulted: short-circuit evaluation reaches the draw. */
  predicate DrawsRandom(args: seq<string>, version: string)
  {
    DefaultMessageFlag !in args && NoEasterEggFlag !in args && !ContainsSubstring(version, EasterEggVersion)
  }

  /** When the draw is not made, its outcome cannot change the banner. */
  lemma DrawIgnoredUnlessDrawn(args: seq<string>, version: string, month: Month)
    requires !DrawsRandom(args, version)
    ensures GetMessage(args, version, true, month) == GetMessage(args, version, false, month)
  {
  }

  /** With "--noeasteregg" (and without "--defaultloadmessage") the banner is seasonal or default. */
  lemma NoEasterEggFlagHonoured(args: seq<string>, version: string, drawHits: bool, month: Month)
    requires NoEasterEggFlag in args
    ensures GetMessage(args, version, drawHits, month) != EasterEgg
    ensures DefaultMessageFlag !in args ==>
      GetMessage(args, version, drawHits, month) == (if month == 12 then Christmas else if month == 10 then Halloween else Default)
  {
  }

  /** Any version whose string contains "6.9" (such as 9.6.9 or 8.16.9) shows the Easter egg unless a flag forbids it. */
  lemma {:induction false} VersionEasterEgg(args: seq<string>, prefix: string, suffix: string, drawHits: bool, month: Month)
    requires DefaultMessageFlag !in args && NoEasterEggFlag !in args
    ensures GetMessage(args, prefix + EasterEggVersion + suffix, drawHits, month) == EasterEgg
  {
    var version := prefix + EasterEggVersion + suffix;
    assert OccursAt(version, EasterEggVersion, |prefix|);
  }

  /** Without the version match or a hit, the month alone decides. */
  lemma MonthDecides(args: seq<string>, version: string, month: Month)
    requires DefaultMessageFlag !in args && !ContainsSubstring(version, EasterEggVersion)
    ensures GetMessage(args, version, false, month) ==
      match month
      case 12 => Christmas
      case 10 => Halloween
      case _ => Default
  {
  }
}
