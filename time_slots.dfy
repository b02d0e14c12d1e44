/**
 * The appointment-time validator of server2.js. The text is trimmed, its
 * whitespace runs are collapsed to single spaces and it is upper-cased; then
 * the FIRST match of `(\d{1,2}):?(\d{2})?\s*(AM|PM)` is rewritten to
 * `H:MM PERIOD` (minutes default to `00`), and the result must be one of the
 * sixteen half-hour slots. The regex is modelled as JavaScript runs it: the
 * leftmost start index wins, and at that index the alternatives are tried in
 * backtracking order (two hour digits before one, the colon before none, the
 * two minute digits before none). A match is recorded by the indices of its
 * groups in the text.
 */
module TimeSlots {
  import opened Wrappers
  import opened Text

  /** The slots `isValidAppointmentTime` accepts, lunch hour included. */
  const Slots: seq<string> := [
    "9:00 AM", "9:30 AM", "10:00 AM", "10:30 AM", "11:00 AM", "11:30 AM",
    "12:00 PM", "12:30 PM", "1:00 PM", "1:30 PM", "2:00 PM", "2:30 PM",
    "3:00 PM", "3:30 PM", "4:00 PM", "4:30 PM"
  ]

  /** The slots `suggestAppointmentTimes` offers. */
  const SuggestedTimes: seq<string> := ["9:00 AM", "10:00 AM", "11:00 AM", "2:00 PM", "3:00 PM", "4:00 PM"]

  /** `AM` or `PM` starts at index `r` of `s`. */
  predicate PeriodAt(s: string, r: nat)
  {
    r + 2 <= |s| && (s[r] == 'A' || s[r] == 'P') && s[r + 1] == 'M'
  }

  /** Two digits start at index `k` of `s`. */
  predicate TwoDigitsAt(s: string, k: nat)
  {
    k + 2 <= |s| && IsDigit(s[k]) && IsDigit(s[k + 1])
  }

  /**
   * What the part of the pattern after the hour matched: where the two minute
   * digits start, if the minute group took part, and where the period starts.
   * The match ends two characters after `period`.
   */
  datatype Tail = Tail(minute: Option<nat>, period: nat)

  /** A match of the whole pattern: where it starts, where the hour digits end, and its `Tail`. */
  datatype TimeMatch = TimeMatch(start: nat, hourEnd: nat, minute: Option<nat>, period: nat)
  {
    function End(): nat
    {
      period + 2
    }
  }

  /**
   * `\s*`, greedy. Only the longest run needs to be tried: a shorter one leaves a
   * whitespace character where the `A` or `P` of the period must follow.
   */
  function SkipSpaces(s: string, k: nat): (r: nat)
    requires k <= |s|
    ensures k <= r <= |s|
    ensures forall j :: k <= j < r ==> IsSpace(s[j])
    ensures r < |s| ==> !IsSpace(s[r])
    decreases |s| - k
  {
    if k < |s| && IsSpace(s[k]) then SkipSpaces(s, k + 1) else k
  }

  /** Where `(\d{2})?` ends when the tail `t` starts at `k`: after the minute digits if they took part. */
  function MinuteEnd(k: nat, t: Tail): nat
  {
    if t.minute.Some? then k + 2 else k
  }

  /**
   * `t` is what `(\d{2})?\s*(AM|PM)` matched from index `k`: the two minute
   * digits at `k` if the group took part, then only whitespace up to the period.
   */
  predicate TailFrom(s: string, k: nat, t: Tail)
  {
    && (t.minute.Some? ==> t.minute.value == k && TwoDigitsAt(s, k))
    && MinuteEnd(k, t) <= t.period && PeriodAt(s, t.period)
    && (forall j :: MinuteEnd(k, t) <= j < t.period ==> IsSpace(s[j]))
  }

  /** `:?` at index `k`: a colon there is always taken, since nothing after the hour can start with one. */
  function AfterColon(s: string, k: nat): nat
  {
    if k < |s| && s[k] == ':' then k + 1 else k
  }

  /** `\s*(AM|PM)` from index `k`, with `minute` where the minute group matched. */
  function PeriodFrom(s: string, k: nat, minute: Option<nat>): (t: Option<Tail>)
    requires k <= |s|
    ensures t.Some? ==> (t.value.minute == minute && k <= t.value.period && PeriodAt(s, t.value.period)
      && forall j :: k <= j < t.value.period ==> IsSpace(s[j]))
  {
    var r := SkipSpaces(s, k);
    if PeriodAt(s, r) then Some(Tail(minute, r)) else None
  }

  /** `(\d{2})?\s*(AM|PM)` from index `k`: with the two minute digits first, then without. */
  function MinuteFrom(s: string, k: nat): (t: Option<Tail>)
    requires k <= |s|
    ensures t.Some? ==> TailFrom(s, k, t.value)
  {
    if TwoDigitsAt(s, k) && PeriodFrom(s, k + 2, Some(k)).Some? then PeriodFrom(s, k + 2, Some(k))
    else PeriodFrom(s, k, None)
  }

  /** `:?(\d{2})?\s*(AM|PM)` from index `k`: with the colon first when there is one, then without. */
  function ColonFrom(s: string, k: nat): (t: Option<Tail>)
    requires k <= |s|
    ensures t.Some? ==> TailFrom(s, AfterColon(s, k), t.value)
  {
    if k < |s| && s[k] == ':' && MinuteFrom(s, k + 1).Some? then MinuteFrom(s, k + 1) else MinuteFrom(s, k)
  }

  /** `m` is a match in `s` at index `i`: one or two hour digits, a colon if one follows, then the tail. */
  predicate IsMatchOf(s: string, i: nat, m: TimeMatch)
  {
    && m.start == i && i < m.hourEnd <= i + 2 && m.hourEnd <= |s|
    && (forall j :: i <= j < m.hourEnd ==> IsDigit(s[j]))
    && TailFrom(s, AfterColon(s, m.hourEnd), Tail(m.minute, m.period))
  }

  /** Hour digits from `i` to `h` followed by a tail the colon stage finds make a match at `i`. */
  lemma HourThenTail(s: string, i: nat, h: nat, t: Tail)
    requires i < h <= i + 2 && h <= |s|
    requires IsDigit(s[i]) && (h == i + 2 ==> IsDigit(s[i + 1]))
    requires ColonFrom(s, h) == Some(t)
    ensures IsMatchOf(s, i, TimeMatch(i, h, t.minute, t.period))
  {
  }

  /** The whole pattern anchored at index `i`: `(\d{1,2})` with two hour digits first, then one. */
  function MatchAt(s: string, i: nat): (m: Option<TimeMatch>)
    requires i <= |s|
    ensures m.Some? ==> IsMatchOf(s, i, m.value)
  {
    if TwoDigitsAt(s, i) && ColonFrom(s, i + 2).Some? then
      var t := ColonFrom(s, i + 2).value;
      HourThenTail(s, i, i + 2, t);
      Some(TimeMatch(i, i + 2, t.minute, t.period))
    else if i < |s| && IsDigit(s[i]) && ColonFrom(s, i + 1).Some? then
      var t := ColonFrom(s, i + 1).value;
      HourThenTail(s, i, i + 1, t);
      Some(TimeMatch(i, i + 1, t.minute, t.period))
    else
      None
  }

  /** `\s*` from `k` stops at `p` when only whitespace lies before `p` and none at it. */
  lemma {:induction false} SkipSpacesTo(s: string, k: nat, p: nat)
    requires k <= p <= |s|
    requires forall j :: k <= j < p ==> IsSpace(s[j])
    requires p < |s| ==> !IsSpace(s[p])
    ensures SkipSpaces(s, k) == p
    decreases p - k
  {
    if k < p {
      SkipSpacesTo(s, k + 1, p);
    }
  }

  /** `\s*(AM|PM)` finds the period that follows a run of whitespace from `k`. */
  lemma PeriodFromComplete(s: string, k: nat, minute: Option<nat>, p: nat)
    requires k <= p && PeriodAt(s, p)
    requires forall j :: k <= j < p ==> IsSpace(s[j])
    ensures PeriodFrom(s, k, minute) == Some(Tail(minute, p))
  {
    SkipSpacesTo(s, k, p);
  }

  /** `(\d{2})?\s*(AM|PM)` from `k` finds every tail there is at `k`: the tail at an index is unique. */
  lemma MinuteFromComplete(s: string, k: nat, t: Tail)
    requires k <= |s| && TailFrom(s, k, t)
    ensures MinuteFrom(s, k) == Some(t)
  {
    if t.minute.Some? {
      PeriodFromComplete(s, k + 2, Some(k), t.period);
    } else {
      PeriodFromComplete(s, k, None, t.period);
    }
  }

  /** `:?(\d{2})?\s*(AM|PM)` from `k` finds every tail there is after the optional colon. */
  lemma ColonFromComplete(s: string, k: nat, t: Tail)
    requires k <= |s| && TailFrom(s, AfterColon(s, k), t)
    ensures ColonFrom(s, k) == Some(t)
  {
    MinuteFromComplete(s, AfterColon(s, k), t);
  }

  /**
   * `MatchAt` misses no match: whenever the pattern matches at `i` with the
   * given groups, `MatchAt` returns exactly that match, so the match at an
   * index is unique.
   */
  lemma MatchAtComplete(s: string, i: nat, m: TimeMatch)
    requires i <= |s| && IsMatchOf(s, i, m)
    ensures MatchAt(s, i) == Some(m)
  {
    if m.hourEnd == i + 2 {
      LongHourComplete(s, i, m);
    } else {
      ShortHourComplete(s, i, m);
    }
  }

  /** A match with a two-digit hour is the one the first branch of `MatchAt` finds. */
  lemma LongHourComplete(s: string, i: nat, m: TimeMatch)
    requires i <= |s| && IsMatchOf(s, i, m) && m.hourEnd == i + 2
    ensures MatchAt(s, i) == Some(m)
  {
    var t := Tail(m.minute, m.period);
    assert IsDigit(s[i]) && IsDigit(s[i + 1]);
    assert TwoDigitsAt(s, i);
    ColonFromComplete(s, i + 2, t);
    assert m == TimeMatch(i, i + 2, t.minute, t.period);
  }

  /** A match with a one-digit hour is found by the second branch, since the first finds nothing. */
  lemma ShortHourComplete(s: string, i: nat, m: TimeMatch)
    requires i <= |s| && IsMatchOf(s, i, m) && m.hourEnd == i + 1
    ensures MatchAt(s, i) == Some(m)
  {
    var t := Tail(m.minute, m.period);
    assert IsDigit(s[i]);
    assert ColonFrom(s, i + 2).None? || !TwoDigitsAt(s, i) by {
      if TwoDigitsAt(s, i) {
        ShortHourExcludesLong(s, i, t);
      }
    }
    ColonFromComplete(s, i + 1, t);
    ShortHourBranch(s, i, t);
  }

  /** The second branch of `MatchAt`: one hour digit and a tail, when the first branch finds nothing. */
  lemma ShortHourBranch(s: string, i: nat, t: Tail)
    requires i < |s| && IsDigit(s[i]) && ColonFrom(s, i + 1) == Some(t)
    requires ColonFrom(s, i + 2).None? || !TwoDigitsAt(s, i)
    ensures MatchAt(s, i) == Some(TimeMatch(i, i + 1, t.minute, t.period))
  {
  }

  /**
   * When one hour digit is followed by a tail, the first two characters of that
   * tail are minute digits, so the two-digit hour has no tail to follow it.
   */
  lemma ShortHourExcludesLong(s: string, i: nat, t: Tail)
    requires i + 2 <= |s| && IsDigit(s[i + 1])
    requires TailFrom(s, AfterColon(s, i + 1), t)
    ensures ColonFrom(s, i + 2).None?
  {
    assert AfterColon(s, i + 1) == i + 1;
    assert AfterColon(s, i + 2) == i + 2;
  }

  /** The leftmost match starting at `from` or later, as a regex without the `g` flag finds it. */
  function FirstMatch(s: string, from: nat): (r: Option<TimeMatch>)
    requires from <= |s|
    ensures r.Some? ==> (from <= r.value.start <= |s| && MatchAt(s, r.value.start) == r
      && forall j :: from <= j < r.value.start ==> MatchAt(s, j).None?)
    ensures r.None? ==> forall j :: from <= j <= |s| ==> MatchAt(s, j).None?
    decreases |s| - from
  {
    var here := MatchAt(s, from);
    if here.Some? then here
    else if from == |s| then None
    else FirstMatch(s, from + 1)
  }

  /** The replacement text `${h}:${m} ${period}`; `padStart(1, '0')` never pads. */
  function Canonical(s: string, m: TimeMatch): (r: string)
    requires IsMatchOf(s, m.start, m)
    ensures |r| == m.hourEnd - m.start + 6
    ensures IsCanonicalTime(r)
    ensures r[..m.hourEnd - m.start] == s[m.start..m.hourEnd]
    ensures r[|r| - 5..|r| - 3] == if m.minute.Some? then s[m.minute.value..m.minute.value + 2] else "00"
    ensures r[|r| - 2..] == s[m.period..m.End()]
  {
    var minute := if m.minute.Some? then s[m.minute.value..m.minute.value + 2] else "00";
    s[m.start..m.hourEnd] + ":" + minute + " " + s[m.period..m.End()]
  }

  /**
   * The text before the time pattern is applied: trimmed, whitespace collapsed,
   * upper-cased. Its only whitespace is single plain spaces, it does not start
   * with one, and it has no lower-case letter left.
   */
  function Prepared(timeText: string): (c: string)
    ensures forall i :: 0 <= i < |c| && IsSpace(c[i]) ==> c[i] == ' '
    ensures forall i :: 0 <= i < |c| - 1 ==> !IsSpace(c[i]) || !IsSpace(c[i + 1])
    ensures c != [] ==> !IsSpace(c[0])
    ensures forall i :: 0 <= i < |c| ==> !('a' <= c[i] <= 'z')
  {
    var t := Trim(timeText);
    var collapsed := CollapseSpaces(t);
    ToUpperSpaces(collapsed);
    ToUpper(collapsed)
  }

  /**
   * `c.replace(pattern, callback)` without the `g` flag: a text without a time
   * expression is kept; otherwise the text before the first one is kept, that
   * expression becomes a canonical time, and the text after it is kept.
   */
  function RewriteFirstTime(c: string): (r: string)
    ensures FirstMatch(c, 0).None? ==> r == c
    ensures FirstMatch(c, 0).Some? ==>
      var m := FirstMatch(c, 0).value;
      var n := m.hourEnd - m.start + 6;
      && m.start <= m.End() <= |c| && |r| == m.start + n + |c| - m.End()
      && r[..m.start] == c[..m.start]
      && IsCanonicalTime(r[m.start..m.start + n])
      && r[m.start..m.start + n] == Canonical(c, m)
      && r[m.start + n..] == c[m.End()..]
  {
    match FirstMatch(c, 0)
    case None => c
    case Some(m) => c[..m.start] + Canonical(c, m) + c[m.End()..]
  }

  /**
   * The normalised time `isValidAppointmentTime` compares with the slots: a
   * prepared text without a time expression is left as it is, and so is one
   * that already is a slot.
   */
  function NormalizeTime(timeText: string): (n: string)
    ensures FirstMatch(Prepared(timeText), 0).None? ==> n == Prepared(timeText)
    ensures Prepared(timeText) in Slots ==> n == Prepared(timeText)
  {
    var c := Prepared(timeText);
    SlotRewrittenToItself(c);
    RewriteFirstTime(c)
  }

  /**
   * `isValidAppointmentTime`: the normalised text is one of the slots, so it is
   * a canonical time; a text that prepares to a slot is accepted.
   */
  predicate IsValidAppointmentTime(timeText: string)
    ensures IsValidAppointmentTime(timeText) ==> IsCanonicalTime(NormalizeTime(timeText))
    ensures Prepared(timeText) in Slots ==> IsValidAppointmentTime(timeText)
  {
    SlotsAreCanonical();
    NormalizeTime(timeText) in Slots
  }

  /**
   * A canonical time `H:MM AM` or `H:MM PM` with one or two hour digits: the
   * form the rewriting produces and every slot has.
   */
  predicate IsCanonicalTime(v: string)
  {
    var n := |v| - 6;
    && 1 <= n <= 2 && (forall j :: 0 <= j < n ==> IsDigit(v[j])) && v[n] == ':' && TwoDigitsAt(v, n + 1)
    && v[n + 3] == ' ' && PeriodAt(v, n + 4)
  }

  /** The prepared text is one time expression from its first to its last character, naming a slot. */
  predicate IsWholeSlot(c: string)
  {
    && MatchAt(c, 0).Some?
    && MatchAt(c, 0).value.End() == |c|
    && Canonical(c, MatchAt(c, 0).value) in Slots
  }

  // ---------------------------------------------------------------- lemmas

  /** Every slot is a canonical time. */
  lemma SlotIsCanonical(v: string)
    requires v in Slots
    ensures IsCanonicalTime(v)
  {
    var i :| 0 <= i < |Slots| && Slots[i] == v;
    if 2 <= i < 8 {
      TwoDigitHourSlotCanonical(i);
    } else {
      OneDigitHourSlotCanonical(i);
    }
  }

  /** The slots from 10 AM to 12:30 PM have a two-digit hour. */
  lemma TwoDigitHourSlotCanonical(i: nat)
    requires 2 <= i < 8
    ensures IsCanonicalTime(Slots[i])
  {
    assert |Slots[i]| == 8;
  }

  /** The other slots have a one-digit hour. */
  lemma OneDigitHourSlotCanonical(i: nat)
    requires i < 2 || 8 <= i < |Slots|
    ensures IsCanonicalTime(Slots[i])
  {
    assert |Slots[i]| == 7;
  }

  /** A canonical time matches the pattern at index 0, as a whole: hour, colon, minutes, space, period. */
  lemma CanonicalMatches(s: string)
    requires IsCanonicalTime(s)
    ensures var n := |s| - 6; MatchAt(s, 0) == Some(TimeMatch(0, n, Some(n + 1), n + 4))
  {
    var n := |s| - 6;
    var tail := Tail(Some(n + 1), n + 4);
    assert SkipSpaces(s, n + 4) == n + 4;
    assert SkipSpaces(s, n + 3) == n + 4;
    assert PeriodFrom(s, n + 3, Some(n + 1)) == Some(tail);
    assert MinuteFrom(s, n + 1) == Some(tail);
    assert ColonFrom(s, n) == Some(tail);
    if n == 1 {
      assert !TwoDigitsAt(s, 0);
    } else {
      assert TwoDigitsAt(s, 0);
    }
  }

  /** A canonical time is its own canonical form. */
  lemma CanonicalOfCanonical(s: string)
    requires IsCanonicalTime(s)
    ensures MatchAt(s, 0).Some? && Canonical(s, MatchAt(s, 0).value) == s
  {
    var n := |s| - 6;
    CanonicalMatches(s);
    var r := Canonical(s, MatchAt(s, 0).value);
    assert r == s[..n] + ":" + s[n + 1..n + 3] + " " + s[n + 4..n + 6];
    forall i | 0 <= i < |s|
      ensures r[i] == s[i]
    {
      if i < n {
        assert r[i] == s[..n][i];
      } else if n + 1 <= i < n + 3 {
        assert r[i] == s[n + 1..n + 3][i - n - 1];
      } else if n + 4 <= i {
        assert r[i] == s[n + 4..n + 6][i - n - 4];
      }
    }
  }

  /** A canonical time is left as it is by the trimming, collapsing and upper-casing. */
  lemma PreparedCanonical(s: string)
    requires IsCanonicalTime(s)
    ensures Prepared(s) == s
  {
    var n := |s| - 6;
    forall i | 0 <= i < |s|
      ensures (IsSpace(s[i]) <==> i == n + 3) && UpperChar(s[i]) == s[i]
    {
      if i < n {
        assert IsDigit(s[i]);
      }
    }
    assert forall i :: 0 <= i < |s| && IsSpace(s[i]) ==> s[i] == ' ';
    assert forall i :: 0 <= i < |s| - 1 ==> !IsSpace(s[i]) || !IsSpace(s[i + 1]);
    TrimOfTrimmed(s);
    CollapseOfCollapsed(s);
    UpperOfUpper(s);
  }

  /** Each slot, written exactly as listed, is its own prepared form and matches itself as a whole. */
  lemma SlotMatchesItself(v: string)
    requires v in Slots
    ensures Prepared(v) == v
    ensures MatchAt(v, 0).Some? && MatchAt(v, 0).value.End() == |v| && Canonical(v, MatchAt(v, 0).value) == v
  {
    SlotIsCanonical(v);
    CanonicalMatches(v);
    CanonicalOfCanonical(v);
    PreparedCanonical(v);
  }

  /**
   * A one-digit hour preceded by a digit is not a leftmost match: the match
   * one index earlier, with two hour digits, is tried first and succeeds.
   */
  lemma ExtendHourLeft(s: string, i: nat)
    requires i <= |s|
    ensures (0 < i && IsDigit(s[i - 1]) && MatchAt(s, i).Some? && MatchAt(s, i).value.hourEnd == i + 1)
      ==> MatchAt(s, i - 1).Some?
  {
  }

  /** The first and last characters of a canonical form: the first hour digit and the `M` of the period. */
  lemma CanonicalEnds(s: string, m: TimeMatch)
    requires IsMatchOf(s, m.start, m)
    ensures var r := Canonical(s, m); r[0] == s[m.start] && IsDigit(r[0]) && r[|r| - 1] == 'M'
  {
  }

  /** The rewrite leaves a slot as it is. */
  lemma SlotRewrittenToItself(v: string)
    ensures v in Slots ==> RewriteFirstTime(v) == v
  {
    if v in Slots {
      SlotIsCanonical(v);
      CanonicalOfCanonical(v);
      CanonicalMatches(v);
      var m := MatchAt(v, 0).value;
      assert FirstMatch(v, 0) == Some(m);
      assert v[..0] + Canonical(v, m) + v[|v|..] == Canonical(v, m);
    }
  }

  /** Every slot is a canonical time. */
  lemma SlotsAreCanonical()
    ensures forall v :: v in Slots ==> IsCanonicalTime(v)
  {
    forall v | v in Slots
      ensures IsCanonicalTime(v)
    {
      SlotIsCanonical(v);
    }
  }

  /** A text that is one slot from end to end is rewritten to that slot. */
  lemma WholeSlotRewritten(c: string)
    requires IsWholeSlot(c)
    ensures RewriteFirstTime(c) == Canonical(c, MatchAt(c, 0).value)
  {
    var m := MatchAt(c, 0).value;
    assert FirstMatch(c, 0) == Some(m);
    assert c[..0] + Canonical(c, m) + c[|c|..] == Canonical(c, m);
  }

  /** A rewritten text that is a canonical time cannot have kept a character before the leftmost match. */
  lemma NothingBeforeSlot(c: string, m: TimeMatch)
    requires m.start <= |c| && MatchAt(c, m.start) == Some(m)
    requires m.start > 0 ==> MatchAt(c, 0).None?
    requires IsCanonicalTime(c[..m.start] + Canonical(c, m) + c[m.End()..])
    ensures m.start == 0
  {
    var v := c[..m.start] + Canonical(c, m) + c[m.End()..];
    var first, kept := v[0], c[0];
    assert IsDigit(first);
    assert m.start > 0 ==> m.start == 1 && m.hourEnd == 2;
    assert m.start > 0 ==> first == kept;
    ExtendHourLeft(c, m.start);
  }

  /** A rewritten text that is a canonical time cannot have kept a character after the match. */
  lemma NothingAfterSlot(c: string, m: TimeMatch)
    requires m.start == 0 && MatchAt(c, 0) == Some(m)
    requires IsCanonicalTime(Canonical(c, m) + c[m.End()..])
    ensures m.End() == |c|
  {
    var can := Canonical(c, m);
    var v := can + c[m.End()..];
    CanonicalEnds(c, m);
    var last := v[|can| - 1];
    assert last == 'M';
  }

  /** A text the rewriting turns into a slot is one slot from end to end. */
  lemma SlotRewriteIsWhole(c: string)
    requires RewriteFirstTime(c) in Slots
    ensures IsWholeSlot(c)
  {
    match FirstMatch(c, 0)
    case None =>
      SlotMatchesItself(c);
      assert false;
    case Some(m) =>
      SlotAroundMatchIsWhole(c, m);
  }

  /** A first match whose rewrite, with the text around it, is a slot spans the whole text. */
  lemma SlotAroundMatchIsWhole(c: string, m: TimeMatch)
    requires FirstMatch(c, 0) == Some(m)
    requires c[..m.start] + Canonical(c, m) + c[m.End()..] in Slots
    ensures IsWholeSlot(c)
  {
    SlotIsCanonical(c[..m.start] + Canonical(c, m) + c[m.End()..]);
    NothingBeforeSlot(c, m);
    assert c[..0] + Canonical(c, m) + c[m.End()..] == Canonical(c, m) + c[m.End()..];
    SlotAtStartIsWhole(c, m);
  }

  /** A match at the start whose rewrite, with the text after it, is a slot spans the whole text. */
  lemma SlotAtStartIsWhole(c: string, m: TimeMatch)
    requires m.start == 0 && MatchAt(c, 0) == Some(m)
    requires Canonical(c, m) + c[m.End()..] in Slots
    ensures IsWholeSlot(c)
  {
    SlotIsCanonical(Canonical(c, m) + c[m.End()..]);
    NothingAfterSlot(c, m);
    assert c[m.End()..] == [];
    assert Canonical(c, m) + [] == Canonical(c, m);
  }

  /** The rewriting produces a slot exactly when its input is one slot from end to end. */
  lemma RewriteInSlotsIff(c: string)
    ensures RewriteFirstTime(c) in Slots <==> IsWholeSlot(c)
  {
    if IsWholeSlot(c) {
      WholeSlotRewritten(c);
    }
    if RewriteFirstTime(c) in Slots {
      SlotRewriteIsWhole(c);
    }
  }

  /**
   * The validator accepts exactly the texts that, once prepared, are one time
   * expression from end to end naming a slot: any text before or after the
   * time makes it fail.
   */
  lemma TimeAcceptedIff(timeText: string)
    ensures IsValidAppointmentTime(timeText) <==> IsWholeSlot(Prepared(timeText))
  {
    RewriteInSlotsIff(Prepared(timeText));
  }

  /** Every slot is accepted, written exactly as listed. */
  lemma SlotAccepted(v: string)
    requires v in Slots
    ensures IsValidAppointmentTime(v)
  {
    SlotMatchesItself(v);
    RewriteInSlotsIff(v);
  }

  /** Every suggested time is a slot, so every suggestion is accepted. */
  lemma SuggestedTimeAccepted(v: string)
    requires v in SuggestedTimes
    ensures v in Slots && IsValidAppointmentTime(v)
  {
    SlotAccepted(v);
  }

  /** A canonical time that is not a slot, such as `09:00 AM` or `5:00 PM`, is rejected. */
  lemma CanonicalOutsideSlotsRejected(v: string)
    requires IsCanonicalTime(v) && v !in Slots
    ensures !IsValidAppointmentTime(v)
  {
    PreparedCanonical(v);
    CanonicalOfCanonical(v);
    CanonicalMatches(v);
    RewriteInSlotsIff(v);
  }

  /** A text that does not start with a digit once prepared, such as `at 9am`, is rejected. */
  lemma NoLeadingDigitRejected(timeText: string)
    requires Prepared(timeText) == [] || !IsDigit(Prepared(timeText)[0])
    ensures !IsValidAppointmentTime(timeText)
  {
    TimeAcceptedIff(timeText);
  }

  /** A match anywhere takes its period from the text, so the text contains `AM` or `PM`. */
  lemma MatchHasPeriod(c: string, i: nat)
    requires i <= |c|
    ensures MatchAt(c, i).Some? ==> Contains(c, "AM") || Contains(c, "PM")
  {
    if MatchAt(c, i).Some? {
      PeriodContained(c, MatchAt(c, i).value.period);
    }
  }

  /** A period at index `k` is an occurrence of `AM` or `PM` there. */
  lemma PeriodContained(c: string, k: nat)
    requires PeriodAt(c, k)
    ensures Contains(c, "AM") || Contains(c, "PM")
  {
    assert c[k..k + 2] == [c[k], c[k + 1]];
    assert OccursAt(c, "AM", k) || OccursAt(c, "PM", k);
  }

  /** A text with neither `AM` nor `PM` in it once prepared, such as a 24-hour `14:00`, is rejected. */
  lemma NoPeriodRejected(timeText: string)
    requires !Contains(Prepared(timeText), "AM") && !Contains(Prepared(timeText), "PM")
    ensures !IsValidAppointmentTime(timeText)
  {
    TimeAcceptedIff(timeText);
    MatchHasPeriod(Prepared(timeText), 0);
  }

  /** A match at the start is rewritten in place; whatever follows it is kept. */
  lemma RewriteAtStart(s: string, m: TimeMatch)
    requires MatchAt(s, 0) == Some(m)
    ensures m.End() <= |s| && RewriteFirstTime(s) == Canonical(s, m) + s[m.End()..]
  {
    assert FirstMatch(s, 0) == Some(m);
    assert s[..0] + Canonical(s, m) == Canonical(s, m);
  }

  /** One or two hour digits. */
  predicate IsHour(h: string)
  {
    1 <= |h| <= 2 && AllDigits(h)
  }

  /** `AM` or `PM`. */
  predicate IsPeriod(p: string)
  {
    |p| == 2 && PeriodAt(p, 0)
  }

  /** The hour and the period of a match are copied from the text. */
  lemma GroupsOf(s: string, m: TimeMatch, h: string, p: string)
    requires IsMatchOf(s, m.start, m) && m.minute.None?
    requires s[m.start..m.hourEnd] == h && s[m.period..m.End()] == p
    ensures Canonical(s, m) == h + ":00 " + p
  {
  }

  /** A match without minutes that spans the whole text is rewritten to `H:00 P`. */
  lemma RewriteWholeHour(s: string, m: TimeMatch, h: string, p: string)
    requires MatchAt(s, 0) == Some(m) && m.minute.None? && m.End() == |s|
    requires s[..m.hourEnd] == h && s[m.period..] == p
    ensures RewriteFirstTime(s) == h + ":00 " + p
  {
    RewriteAtStart(s, m);
    GroupsOf(s, m, h, p);
    assert s[m.End()..] == [];
  }

  /** A match with minutes that spans the whole text is rewritten to `H:MM P`. */
  lemma RewriteWholeTime(s: string, m: TimeMatch, h: string, mm: string, p: string)
    requires MatchAt(s, 0) == Some(m) && m.minute.Some? && m.End() == |s|
    requires s[..m.hourEnd] == h && s[m.minute.value..m.minute.value + 2] == mm && s[m.period..] == p
    ensures RewriteFirstTime(s) == h + ":" + mm + " " + p
  {
    RewriteAtStart(s, m);
    MinuteGroupsOf(s, m, h, mm, p);
    assert s[m.End()..] == [];
  }

  /** The hour, the minutes and the period of a match with minutes are copied from the text. */
  lemma MinuteGroupsOf(s: string, m: TimeMatch, h: string, mm: string, p: string)
    requires IsMatchOf(s, m.start, m) && m.minute.Some?
    requires s[m.start..m.hourEnd] == h && s[m.minute.value..m.minute.value + 2] == mm && s[m.period..m.End()] == p
    ensures Canonical(s, m) == h + ":" + mm + " " + p
  {
  }

  /** An hour followed directly by a period, like `9AM`, matches with no minutes. */
  lemma HourPeriodMatch(h: string, p: string)
    requires IsHour(h) && IsPeriod(p)
    ensures MatchAt(h + p, 0) == Some(TimeMatch(0, |h|, None, |h|))
  {
    var s := h + p;
    var n := |h|;
    var tail := Tail(None, n);
    assert s[n] == p[0] && s[n + 1] == p[1];
    assert SkipSpaces(s, n) == n;
    assert PeriodFrom(s, n, None) == Some(tail);
    assert !TwoDigitsAt(s, n);
    assert MinuteFrom(s, n) == Some(tail);
    assert ColonFrom(s, n) == Some(tail);
    assert IsDigit(s[0]) by {
      assert s[0] == h[0];
    }
    if n == 2 {
      assert TwoDigitsAt(s, 0) by {
        assert s[1] == h[1];
      }
    }
  }

  /** `9AM` reads as that hour with minutes `00`. */
  lemma HourPeriodRewritten(h: string, p: string)
    requires IsHour(h) && IsPeriod(p)
    ensures RewriteFirstTime(h + p) == h + ":00 " + p
  {
    var s := h + p;
    var m := TimeMatch(0, |h|, None, |h|);
    HourPeriodMatch(h, p);
    assert s[..|h|] == h && s[|h|..] == p;
    RewriteWholeHour(s, m, h, p);
  }

  /** An hour, one space and a period, like `9 AM`, matches with no minutes. */
  lemma HourSpacePeriodMatch(h: string, p: string)
    requires IsHour(h) && IsPeriod(p)
    ensures MatchAt(h + " " + p, 0) == Some(TimeMatch(0, |h|, None, |h| + 1))
  {
    var s := h + " " + p;
    var n := |h|;
    var tail := Tail(None, n + 1);
    assert s[n] == ' ' && s[n + 1] == p[0] && s[n + 2] == p[1];
    assert SkipSpaces(s, n + 1) == n + 1;
    assert SkipSpaces(s, n) == n + 1;
    assert PeriodFrom(s, n, None) == Some(tail);
    assert !TwoDigitsAt(s, n);
    assert MinuteFrom(s, n) == Some(tail);
    assert ColonFrom(s, n) == Some(tail);
    assert IsDigit(s[0]) by {
      assert s[0] == h[0];
    }
    if n == 2 {
      assert TwoDigitsAt(s, 0) by {
        assert s[1] == h[1];
      }
    }
  }

  /** `9 AM` reads as that hour with minutes `00`. */
  lemma HourSpacePeriodRewritten(h: string, p: string)
    requires IsHour(h) && IsPeriod(p)
    ensures RewriteFirstTime(h + " " + p) == h + ":00 " + p
  {
    var s := h + " " + p;
    var m := TimeMatch(0, |h|, None, |h| + 1);
    HourSpacePeriodMatch(h, p);
    assert s[..|h|] == h && s[|h| + 1..] == p;
    RewriteWholeHour(s, m, h, p);
  }

  /** `H:MM` followed directly by a period, like `9:30PM`, matches with those minutes. */
  lemma MinutePeriodMatch(h: string, mm: string, p: string)
    requires IsHour(h) && |mm| == 2 && AllDigits(mm) && IsPeriod(p)
    ensures MatchAt(h + ":" + mm + p, 0) == Some(TimeMatch(0, |h|, Some(|h| + 1), |h| + 3))
  {
    var s := h + ":" + mm + p;
    var n := |h|;
    var tail := Tail(Some(n + 1), n + 3);
    assert s[n] == ':' && s[n + 1] == mm[0] && s[n + 2] == mm[1] && s[n + 3] == p[0] && s[n + 4] == p[1];
    assert SkipSpaces(s, n + 3) == n + 3;
    assert PeriodFrom(s, n + 3, Some(n + 1)) == Some(tail);
    assert MinuteFrom(s, n + 1) == Some(tail);
    assert ColonFrom(s, n) == Some(tail);
    assert IsDigit(s[0]) by {
      assert s[0] == h[0];
    }
    if n == 2 {
      assert TwoDigitsAt(s, 0) by {
        assert s[1] == h[1];
      }
    }
  }

  /** `9:30PM` gains the space before the period. */
  lemma MinutePeriodRewritten(h: string, mm: string, p: string)
    requires IsHour(h) && |mm| == 2 && AllDigits(mm) && IsPeriod(p)
    ensures RewriteFirstTime(h + ":" + mm + p) == h + ":" + mm + " " + p
  {
    var s := h + ":" + mm + p;
    var n := |h|;
    var m := TimeMatch(0, n, Some(n + 1), n + 3);
    MinutePeriodMatch(h, mm, p);
    assert s[..n] == h && s[n + 1..n + 3] == mm && s[n + 3..] == p;
    RewriteWholeTime(s, m, h, mm, p);
  }

  /** A text with no whitespace is prepared by upper-casing alone. */
  lemma PreparedWithoutSpaces(t: string)
    requires NoSpaces(t)
    ensures Prepared(t) == ToUpper(t)
  {
    assert IsTrimmed(t) by {
      if t != [] {
        assert !IsSpace(t[0]) && !IsSpace(t[|t| - 1]);
      }
    }
    TrimOfTrimmed(t);
    CollapseOfCollapsed(t);
    assert CollapseSpaces(Trim(t)) == t;
  }

  /** Two texts without whitespace joined by one space are prepared by upper-casing alone. */
  lemma PreparedOneSpace(a: string, b: string)
    requires a != [] && b != [] && NoSpaces(a) && NoSpaces(b)
    ensures Prepared(a + " " + b) == ToUpper(a + " " + b)
  {
    var t := a + " " + b;
    forall i | 0 <= i < |t|
      ensures IsSpace(t[i]) <==> i == |a|
    {
      if i < |a| {
        assert t[i] == a[i];
      } else if i > |a| {
        assert t[i] == b[i - |a| - 1];
      }
    }
    TrimOfTrimmed(t);
    CollapseOfCollapsed(t);
  }

  /** Upper-casing distributes over concatenation. */
  lemma ToUpperAppend(a: string, b: string)
    ensures ToUpper(a + b) == ToUpper(a) + ToUpper(b)
  {
  }

  /** Digits, `:` and the letters of a period, in either case, are not whitespace and are upper-cased as expected. */
  lemma PlainTimeText(h: string, p: string)
    requires AllDigits(h) && |p| == 2 && IsPeriod(ToUpper(p))
    ensures NoSpaces(h) && NoSpaces(p) && ToUpper(h) == h
  {
    assert UpperChar(p[0]) == ToUpper(p)[0] && UpperChar(p[1]) == ToUpper(p)[1];
    assert forall i :: 0 <= i < |h| ==> IsDigit(h[i]);
  }

  /** An hour followed by a period in either case, like `9am` or `12PM`, is accepted when it names a slot. */
  lemma HourPeriodAccepted(h: string, p: string)
    requires IsHour(h) && |p| == 2 && IsPeriod(ToUpper(p))
    requires h + ":00 " + ToUpper(p) in Slots
    ensures NormalizeTime(h + p) == h + ":00 " + ToUpper(p) && IsValidAppointmentTime(h + p)
  {
    PlainTimeText(h, p);
    assert NoSpaces(h + p) by {
      assert forall i :: 0 <= i < |h + p| ==> (h + p)[i] == if i < |h| then h[i] else p[i - |h|];
    }
    PreparedWithoutSpaces(h + p);
    ToUpperAppend(h, p);
    HourPeriodRewritten(h, ToUpper(p));
  }

  /** An hour, a space and a period in either case, like `9 am` or `11 AM`, is accepted when it names a slot. */
  lemma HourSpacePeriodAccepted(h: string, p: string)
    requires IsHour(h) && |p| == 2 && IsPeriod(ToUpper(p))
    requires h + ":00 " + ToUpper(p) in Slots
    ensures NormalizeTime(h + " " + p) == h + ":00 " + ToUpper(p) && IsValidAppointmentTime(h + " " + p)
  {
    PlainTimeText(h, p);
    PreparedOneSpace(h, p);
    ToUpperAppend(h + " ", p);
    ToUpperAppend(h, " ");
    assert ToUpper(" ") == " ";
    HourSpacePeriodRewritten(h, ToUpper(p));
  }

  /** `H:MM` and a period in either case, like `2:30pm`, is accepted when it names a slot. */
  lemma MinutePeriodAccepted(h: string, mm: string, p: string)
    requires IsHour(h) && |mm| == 2 && AllDigits(mm) && |p| == 2 && IsPeriod(ToUpper(p))
    requires h + ":" + mm + " " + ToUpper(p) in Slots
    ensures NormalizeTime(h + ":" + mm + p) == h + ":" + mm + " " + ToUpper(p)
    ensures IsValidAppointmentTime(h + ":" + mm + p)
  {
    PlainTimeText(h, p);
    PlainTimeText(mm, p);
    var t := h + ":" + mm + p;
    assert NoSpaces(t) by {
      forall i | 0 <= i < |t|
        ensures !IsSpace(t[i])
      {
        if i < |h| {
          assert t[i] == h[i];
        } else if |h| < i < |h| + 3 {
          assert t[i] == mm[i - |h| - 1];
        } else if i >= |h| + 3 {
          assert t[i] == p[i - |h| - 3];
        }
      }
    }
    PreparedWithoutSpaces(t);
    ToUpperAppend(h + ":" + mm, p);
    ToUpperAppend(h + ":", mm);
    ToUpperAppend(h, ":");
    assert ToUpper(":") == ":";
    MinutePeriodRewritten(h, mm, ToUpper(p));
  }

  /** A leading zero is kept, so `09:00 AM` is not the slot `9:00 AM`. */
  lemma LeadingZeroRejected()
    ensures !IsValidAppointmentTime("09:00 AM")
  {
    CanonicalOutsideSlotsRejected("09:00 AM");
  }

  /** A time after the last slot, `5:00 PM`, is rejected. */
  lemma AfterHoursRejected()
    ensures !IsValidAppointmentTime("5:00 PM")
  {
    CanonicalOutsideSlotsRejected("5:00 PM");
  }
  /** `9am` (the hour and the period given apart) reads as the slot `9:00 AM`. */
  lemma NineAmAccepted()
    ensures NormalizeTime("9am") == "9:00 AM" && IsValidAppointmentTime("9am")
  {
    var h, p := "9", "am";
    assert h + p == "9am";
    assert ToUpper(p) == "AM";
    assert h + ":00 " + "AM" == Slots[0];
    HourPeriodAccepted(h, p);
  }

  /** `9:00am` reads as the slot `9:00 AM`. */
  lemma NineColonAmAccepted()
    ensures NormalizeTime("9:00am") == "9:00 AM" && IsValidAppointmentTime("9:00am")
  {
    var h, mm, p := "9", "00", "am";
    assert h + ":" + mm + p == "9:00am";
    assert ToUpper(p) == "AM";
    assert h + ":" + mm + " " + "AM" == Slots[0];
    MinutePeriodAccepted(h, mm, p);
  }

  /** `9 AM` reads as the slot `9:00 AM`. */
  lemma NineSpaceAmAccepted()
    ensures NormalizeTime("9 AM") == "9:00 AM" && IsValidAppointmentTime("9 AM")
  {
    var h, p := "9", "AM";
    assert h + " " + p == "9 AM";
    assert ToUpper(p) == "AM";
    assert h + ":00 " + "AM" == Slots[0];
    HourSpacePeriodAccepted(h, p);
  }

  /** Whitespace around the time is trimmed away: `9:00 AM ` is accepted. */
  lemma TrailingSpaceAccepted()
    ensures IsValidAppointmentTime("9:00 AM ")
  {
    var t := "9:00 AM ";
    TrimStartOfTrimmed(t);
    assert t[..|t| - 1] == "9:00 AM";
    TrimEndOfTrimmed("9:00 AM");
    assert Trim(t) == "9:00 AM";
    assert Prepared(t) == Prepared("9:00 AM") by {
      TrimOfTrimmed("9:00 AM");
    }
    SlotAccepted("9:00 AM");
    assert NormalizeTime(t) == NormalizeTime("9:00 AM");
  }

  /** An hour no clock has, `25:00 AM`, is rejected. */
  lemma HourOutOfRangeRejected()
    ensures !IsValidAppointmentTime("25:00 AM")
  {
    CanonicalOutsideSlotsRejected("25:00 AM");
  }

  /** `9:00 XM` contains neither `AM` nor `PM`. */
  lemma NoPeriodInXm()
    ensures !Contains("9:00 XM", "AM") && !Contains("9:00 XM", "PM")
  {
    var t := "9:00 XM";
    forall i: nat | i <= |t|
      ensures !OccursAt(t, "AM", i) && !OccursAt(t, "PM", i)
    {
      if i + 2 <= |t| {
        assert t[i..i + 2][0] == t[i] && t[i..i + 2][1] == t[i + 1];
      }
    }
  }

  /** `9:00 XM` is already in prepared form. */
  lemma XmPrepared()
    ensures Prepared("9:00 XM") == "9:00 XM"
  {
    var t := "9:00 XM";
    PreparedOneSpace("9:00", "XM");
    assert "9:00" + " " + "XM" == t;
    forall i | 0 <= i < |t|
      ensures UpperChar(t[i]) == t[i]
    {
      assert t[i] in "9:0 XM";
    }
    UpperOfUpper(t);
  }

  /** A period other than `AM` or `PM`, as in `9:00 XM`, is rejected. */
  lemma UnknownPeriodRejected()
    ensures !IsValidAppointmentTime("9:00 XM")
  {
    XmPrepared();
    NoPeriodInXm();
    NoPeriodRejected("9:00 XM");
  }
}
