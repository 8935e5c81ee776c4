/**
 * `MainActivity.checkAnniversary`: at most one reminder per calendar day,
 * about the first memory in the published list that was recorded exactly one
 * calendar year before today. The stored preference, the clock and the
 * notification manager are parameters and fields.
 */
module Anniversary {
  import opened Wrappers
  import opened MemoryRecord
  import opened Dates
  import opened MemoryList

  const Title := "Exactly one year ago today!"
  const TextPrefix := "You were at "

  datatype Notification = Notification(title: string, text: string)

  /** The reminder `sendNotification` builds for a memory. */
  function NotificationFor(m: Memory): (n: Notification) {
    Notification(Title, TextPrefix + m.address)
  }

  /** `i` is the first position, in list order, holding a memory recorded on `target`. */
  predicate IsFirstMatch(memories: seq<Memory>, target: string, i: int) {
    0 <= i < |memories| && memories[i].date == target &&
    forall j :: 0 <= j < i ==> memories[j].date != target
  }

  /** `memories.find { it.date == target }`: the first memory, in list order, recorded on `target`. */
  function FindByDate(memories: seq<Memory>, target: string): (r: Option<Memory>)
    ensures r.None? <==> forall i :: 0 <= i < |memories| ==> memories[i].date != target
    ensures r.Some? ==> exists i :: IsFirstMatch(memories, target, i) && memories[i] == r.value
  {
    if memories == [] then None
    else if memories[0].date == target then
      assert IsFirstMatch(memories, target, 0);
      Some(memories[0])
    else
      var r := FindByDate(memories[1..], target);
      assert r.Some? ==> exists i :: IsFirstMatch(memories, target, i) && memories[i] == r.value by {
        if r.Some? {
          var k :| IsFirstMatch(memories[1..], target, k) && memories[1..][k] == r.value;
          assert IsFirstMatch(memories, target, k + 1) by {
            forall j | 0 <= j < k + 1 ensures memories[j].date != target {
              if j > 0 {
                assert memories[j] == memories[1..][j - 1];
              }
            }
          }
        }
      }
      r
  }

  /** The string the source compares `date` fields with: today, one calendar year back. */
  function TargetDate(today: Date): string
    requires IsValid(today) && today.year > MinYear
  {
    Format(YearBack(today))
  }

  /**
   * The memory a check reminds about: none when today's reminder has already
   * been sent, otherwise the first memory recorded on the target date.
   */
  function Decide(lastNotify: string, memories: seq<Memory>, today: Date): (r: Option<Memory>)
    requires IsValid(today) && today.year > MinYear
    ensures r.Some? <==>
      (lastNotify != Format(today) &&
       exists i :: 0 <= i < |memories| && memories[i].date == TargetDate(today))
    ensures r.Some? ==> exists i :: IsFirstMatch(memories, TargetDate(today), i) && memories[i] == r.value
  {
    if lastNotify == Format(today) then None else FindByDate(memories, TargetDate(today))
  }

  /** The activity's durable budget and the reminders it has posted. */
  class AnniversaryChecker {
    /** `last_anniversary_notify` in the `MemoryPrefs` preferences; "" when absent. */
    var lastNotify: string
    /** Every notification posted so far, oldest first. */
    var sent: seq<Notification>

    constructor (stored: Option<string>)
      ensures lastNotify == stored.GetOr("") && sent == []
    {
      lastNotify := stored.GetOr("");
      sent := [];
    }

    /**
     * `checkAnniversary`: when the budget already holds today's string nothing
     * happens; otherwise the first memory recorded one calendar year ago, if
     * any, is announced and only then is the budget set to today.
     */
    method CheckAnniversary(memories: seq<Memory>, today: Date)
      requires IsValid(today) && today.year > MinYear
      modifies this
      ensures var chosen := Decide(old(lastNotify), memories, today);
        if chosen.Some? then
          lastNotify == Format(today) && sent == old(sent) + [NotificationFor(chosen.value)]
        else
          lastNotify == old(lastNotify) && sent == old(sent)
    {
      var todayStr := Format(today);
      if lastNotify == todayStr {
        return;
      }
      var cal := YearBack(today);
      var targetDate := Format(cal);
      var anniversaryMemory := FindByDate(memories, targetDate);
      if anniversaryMemory.Some? {
        sent := sent + [NotificationFor(anniversaryMemory.value)];
        lastNotify := todayStr;
      }
    }

    /** The `LaunchedEffect(memories)`: the check runs only for a signed-in user and a non-empty list. */
    method OnMemoriesPublished(signedIn: bool, memories: seq<Memory>, today: Date)
      requires IsValid(today) && today.year > MinYear
      modifies this
      ensures !(signedIn && |memories| > 0) ==> lastNotify == old(lastNotify) && sent == old(sent)
      ensures signedIn && |memories| > 0 ==>
        var chosen := Decide(old(lastNotify), memories, today);
        if chosen.Some? then
          lastNotify == Format(today) && sent == old(sent) + [NotificationFor(chosen.value)]
        else
          lastNotify == old(lastNotify) && sent == old(sent)
    {
      if signedIn && |memories| > 0 {
        CheckAnniversary(memories, today);
      }
    }
  }

  /**
   * Once a reminder has gone out the budget holds today's string, so every
   * later check that day, whatever the list, announces nothing.
   */
  lemma AtMostOncePerDay(lastNotify: string, first: seq<Memory>, later: seq<Memory>, today: Date)
    requires IsValid(today) && today.year > MinYear
    requires Decide(lastNotify, first, today).Some?
    ensures Decide(Format(today), later, today).None?
  {
  }

  /** A reminder is only ever about a memory recorded exactly on the target day. */
  lemma ChosenMatchesTarget(lastNotify: string, memories: seq<Memory>, today: Date)
    requires IsValid(today) && today.year > MinYear
    requires Decide(lastNotify, memories, today).Some?
    ensures var m := Decide(lastNotify, memories, today).value;
      m in memories && m.date == TargetDate(today) && lastNotify != Format(today)
  {
  }

  /**
   * On a newest-first list, which is what the view model publishes, the
   * reminder is about the newest memory recorded on the target date.
   */
  lemma ChosenIsNewestOnTarget(lastNotify: string, memories: seq<Memory>, today: Date)
    requires IsValid(today) && today.year > MinYear
    requires NonIncreasing(memories)
    requires Decide(lastNotify, memories, today).Some?
    ensures forall k :: 0 <= k < |memories| && memories[k].date == TargetDate(today) ==>
      Decide(lastNotify, memories, today).value.timestamp >= memories[k].timestamp
  {
    var target := TargetDate(today);
    var i :| IsFirstMatch(memories, target, i) && memories[i] == Decide(lastNotify, memories, today).value;
    forall k | 0 <= k < |memories| && memories[k].date == target
      ensures memories[i].timestamp >= memories[k].timestamp
    {
      assert i <= k;
    }
  }

  /** Every list `onDataChange` publishes is newest first, so the lemma above applies to it. */
  lemma PublishedReminderIsNewest(lastNotify: string, children: seq<Option<Memory>>, today: Date)
    requires IsValid(today) && today.year > MinYear
    requires Decide(lastNotify, Published(children), today).Some?
    ensures var list := Published(children);
      forall k :: 0 <= k < |list| && list[k].date == TargetDate(today) ==>
        Decide(lastNotify, list, today).value.timestamp >= list[k].timestamp
  {
    ChosenIsNewestOnTarget(lastNotify, Published(children), today);
  }

  /** A memory recorded on a 29 February is never the subject of a reminder. */
  lemma {:induction false} LeapDayMemoryNeverChosen(lastNotify: string, memories: seq<Memory>, today: Date, y: int)
    requires IsValid(today) && today.year > MinYear
    requires IsValid(Date(29, 2, y))
    requires Decide(lastNotify, memories, today).Some?
    ensures Decide(lastNotify, memories, today).value.date != Format(Date(29, 2, y))
  {
    YearBackNeverLeapDay(today);
    FormatInjective(YearBack(today), Date(29, 2, y));
  }

  /**
   * Of two memories sharing an anniversary the earlier in the list wins, and
   * the budget then silences the other one for the day.
   */
  lemma FirstOfTiedAnniversariesWins(lastNotify: string, a: Memory, b: Memory, today: Date)
    requires IsValid(today) && today.year > MinYear
    requires lastNotify != Format(today)
    requires a.date == TargetDate(today) && b.date == TargetDate(today)
    ensures Decide(lastNotify, [a, b], today) == Some(a)
    ensures Decide(Format(today), [a, b], today).None?
  {
  }

  /**
   * The scenario: on 10/05/2024, with no stored budget, the list
   * [a recorded 10/05/2024, b recorded 10/05/2023] yields a reminder about b;
   * a second check that day yields none.
   */
  lemma OneYearAgoScenario()
    ensures var a := Memory("a", "", "10/05/2024", 0, 0, "", 200);
      var b := Memory("b", "", "10/05/2023", 0, 0, "", 100);
      var today := Date(10, 5, 2024);
      Decide("", [a, b], today) == Some(b) && Decide(Format(today), [a, b], today).None?
  {
    var today := Date(10, 5, 2024);
    assert Format(today) == "10/05/2024";
    assert TargetDate(today) == "10/05/2023";
  }

  /**
   * Leap years under calendar subtraction: on 28/02/2025 the target is
   * 28/02/2024 and on 01/03/2025 it is 01/03/2024, so a memory of 29/02/2024
   * matches neither day.
   */
  lemma LeapYearTargets()
    ensures TargetDate(Date(28, 2, 2025)) == "28/02/2024"
    ensures TargetDate(Date(1, 3, 2025)) == "01/03/2024"
    ensures TargetDate(Date(29, 2, 2024)) == "28/02/2023"
  {
    assert YearBack(Date(28, 2, 2025)) == Date(28, 2, 2024);
    assert YearBack(Date(1, 3, 2025)) == Date(1, 3, 2024);
    assert YearBack(Date(29, 2, 2024)) == Date(28, 2, 2023);
  }
}
