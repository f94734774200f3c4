/** `getAchievements` (backend/src/players/players.service.ts): the tiers a
    win count earns, cut from the end of a fixed list with a JavaScript
    `slice`. */
module Achievements {

  /** The tier list, most prestigious first. */
  const Tiers: seq<string> := ["gold", "silver", "bronze", "first"]

  /** The index `Array.prototype.slice(start)` starts copying from: a negative
      start counts back from the end (clamped at 0), a non-negative one is
      clamped at the length. */
  function SliceFrom(len: nat, start: int): (k: nat)
    ensures k <= len
  {
    if start < 0 then
      (if len + start > 0 then len + start else 0)
    else
      (if start < len then start else len)
  }

  /** `a.slice(start)`: always a suffix of `a`; a negative start keeps the last
      `-start` elements, a non-negative start drops the first `start`. */
  function Slice<T>(a: seq<T>, start: int): (r: seq<T>)
    ensures |r| <= |a| && r == a[|a| - |r|..]
    ensures start < 0 ==> |r| == (if -start < |a| then -start else |a|)
    ensures start >= 0 ==> |r| == (if start < |a| then |a| - start else 0)
  {
    a[SliceFrom(|a|, start)..]
  }

  /** The slice start the ladder of `if`s picks for a win count. */
  function SliceStart(wins: int): int {
    if wins >= 20 then -4
    else if wins >= 10 then -3
    else if wins >= 5 then -2
    else if wins == 1 then -1
    else 4
  }

  /** The achievement tiers for `wins`. Two and four wins earn nothing, just
      like zero: the fall-through start 4 slices past the end. */
  function GetAchievements(wins: int): (r: seq<string>)
    ensures |r| <= |Tiers| && r == Tiers[|Tiers| - |r|..]
    ensures wins >= 20 ==> r == ["gold", "silver", "bronze", "first"]
    ensures 10 <= wins < 20 ==> r == ["silver", "bronze", "first"]
    ensures 5 <= wins < 10 ==> r == ["bronze", "first"]
    ensures wins == 1 ==> r == ["first"]
    ensures wins < 1 || 2 <= wins < 5 ==> r == []
  {
    Slice(Tiers, SliceStart(wins))
  }

  /** More wins never earn fewer tiers, with the single exception of going
      from one win to two, three or four. */
  lemma AchievementsMonotone(w1: int, w2: int)
    requires w1 <= w2
    requires !(w1 == 1 && 2 <= w2 < 5)
    ensures |GetAchievements(w1)| <= |GetAchievements(w2)|
    ensures GetAchievements(w1) == GetAchievements(w2)[|GetAchievements(w2)| - |GetAchievements(w1)|..]
  {
  }

  /** The drop the exception above refers to. */
  lemma AchievementsDropAfterFirstWin(w: int)
    requires 2 <= w < 5
    ensures GetAchievements(1) == ["first"] && GetAchievements(w) == []
  {
  }
}
