/**
 Project ticket numbers PRJ-YYYY-NNNN: the next number is read back from the last four characters of the
 numbers already issued in the year, and (tenant_id, ticket_number) is unique.
 */
module TicketNumbers {
  import opened Decimal

  function Prefix(year: nat): string
  {
    "PRJ-" + Print(year) + "-"
  }

  function Ticket(year: nat, n: nat): string
  {
    Prefix(year) + PadFour(n)
  }

  function Right4(s: string): string
  {
    if |s| <= 4 then s else s[|s| - 4..]
  }

  datatype Max = NoRows | Value(n: int) | CastError

  /** CAST(s AS INTEGER): an optional sign and at least one digit. */
  function Cast(s: string): Max
  {
    if s != "" && IsDigits(s) then Value(Parse(s))
    else if |s| > 1 && s[0] == '-' && IsDigits(s[1..]) then Value(0 - Parse(s[1..]))
    else if |s| > 1 && s[0] == '+' && IsDigits(s[1..]) then Value(Parse(s[1..]))
    else CastError
  }

  /** One more value in a MAX; a value that cannot be cast fails the statement. */
  function Larger(m: Max, c: Max): Max
  {
    match (m, c)
    case (CastError, _) => CastError
    case (_, CastError) => CastError
    case (Value(a), Value(b)) => Value(if a >= b then a else b)
    case (_, last) => last
  }

  /** MAX over the casts. */
  function MaxOf(tickets: seq<string>): Max
  {
    if tickets == [] then NoRows
    else Larger(MaxOf(tickets[..|tickets| - 1]), Cast(Right4(tickets[|tickets| - 1])))
  }

  /** LIKE 'prefix%', for a prefix without wildcards. */
  function Matching(tickets: seq<string>, prefix: string): seq<string>
  {
    if tickets == [] then []
    else
      var last := tickets[|tickets| - 1];
      Matching(tickets[..|tickets| - 1], prefix) + if prefix <= last then [last] else []
  }

  /** `f"{n:04d}"`, sign included in the width. */
  function FourDigits(n: int): string
  {
    if n >= 0 then PadFour(n)
    else
      var d := Print(-n);
      "-" + if |d| < 3 then seq(3 - |d|, i => '0') + d else d
  }

  datatype Outcome = Issued(ticket: string) | DuplicateTicket(ticket: string) | QueryFailed

  /** One project creation in the year, on the tickets of one tenant: query, format, insert under the unique key. */
  function Create(tickets: seq<string>, year: nat): (seq<string>, Outcome)
  {
    var largest := MaxOf(Matching(tickets, Prefix(year)));
    if largest.CastError? then (tickets, QueryFailed)
    else
      var t := Prefix(year) + FourDigits((if largest.Value? then largest.n else 0) + 1);
      if t in tickets then (tickets, DuplicateTicket(t)) else (tickets + [t], Issued(t))
  }

  class Projects {
    var tickets: seq<string>

    method CreateProject(year: nat) returns (o: Outcome)
      modifies this
      ensures (tickets, o) == Create(old(tickets), year)
    {
      var largest := MaxOf(Matching(tickets, Prefix(year)));
      if largest.CastError? {
        return QueryFailed;
      }
      var t := Prefix(year) + FourDigits((if largest.Value? then largest.n else 0) + 1);
      if t in tickets {
        o := DuplicateTicket(t);
      } else {
        tickets := tickets + [t];
        o := Issued(t);
      }
    }
  }

  /** Successive creations, each in the year the clock shows then. */
  function Run(tickets: seq<string>, years: seq<nat>): seq<string>
  {
    if years == [] then tickets else Create(Run(tickets, years[..|years| - 1]), years[|years| - 1]).0
  }

  function Calls(years: seq<nat>, year: nat): nat
  {
    if years == [] then 0
    else Calls(years[..|years| - 1], year) + if years[|years| - 1] == year then 1 else 0
  }

  /** The first k numbers of a year. */
  function Numbers(year: nat, k: nat): seq<string>
  {
    seq(k, i requires 0 <= i < k => Ticket(year, i + 1))
  }

  // ---- One creation -------------------------------------------------------------------------

  /** The ticket counts for the query, and its last four characters are this integer. */
  predicate Reads(t: string, prefix: string, n: int)
  {
    prefix <= t && Cast(Right4(t)) == Value(n)
  }

  /** What MAX over the year's numbers gives, for any numbers: an error, nothing, or their greatest integer. */
  ghost predicate Greatest(tickets: seq<string>, prefix: string, m: Max)
  {
    match m
    case CastError => exists t :: t in tickets && prefix <= t && Cast(Right4(t)).CastError?
    case NoRows => forall t | t in tickets :: !(prefix <= t)
    case Value(n) =>
      && (exists t :: t in tickets && Reads(t, prefix, n))
      && (forall t | t in tickets && prefix <= t :: Cast(Right4(t)).Value? && Cast(Right4(t)).n <= n)
  }

  lemma CastValueOrError(s: string)
    ensures !Cast(s).NoRows?
  {
  }

  lemma MaxOfLast(tickets: seq<string>, last: string)
    ensures MaxOf(tickets + [last]) == Larger(MaxOf(tickets), Cast(Right4(last)))
  {
    assert (tickets + [last])[..|tickets|] == tickets;
  }

  lemma GreatestGrows(before: seq<string>, prefix: string, last: string, m: Max)
    requires Greatest(before, prefix, m)
    ensures Greatest(before + [last], prefix, if prefix <= last then Larger(m, Cast(Right4(last))) else m)
  {
    var c, all := Cast(Right4(last)), before + [last];
    CastValueOrError(Right4(last));
    assert all[|before|] == last;
    assert forall t :: t in all <==> t in before || t == last;
    if prefix <= last && c.Value? { assert Reads(last, prefix, c.n); }
  }

  lemma {:induction false} MaxIsGreatest(tickets: seq<string>, prefix: string)
    ensures Greatest(tickets, prefix, MaxOf(Matching(tickets, prefix)))
  {
    if tickets != [] {
      var before, last := tickets[..|tickets| - 1], tickets[|tickets| - 1];
      MaxIsGreatest(before, prefix);
      MaxIsGreatestStep(before, prefix, last);
      assert tickets == before + [last];
    }
  }

  lemma MaxIsGreatestStep(before: seq<string>, prefix: string, last: string)
    requires Greatest(before, prefix, MaxOf(Matching(before, prefix)))
    ensures Greatest(before + [last], prefix, MaxOf(Matching(before + [last], prefix)))
  {
    var seen := Matching(before, prefix);
    GreatestGrows(before, prefix, last, MaxOf(seen));
    MatchingAppend(before, last, prefix);
    MaxOfLast(seen, last);
    assert seen + [] == seen;
  }

  lemma CastOfDigits(d: string)
    requires d != "" && IsDigits(d)
    ensures Cast(d) == Value(Parse(d)) && Cast("-" + d) == Value(0 - Parse(d)) && Cast("+" + d) == Value(Parse(d))
  {
    assert '-' !in DIGITS && '+' !in DIGITS;
    assert ("-" + d)[1..] == d && ("+" + d)[1..] == d;
    assert ("-" + d)[0] == '-' && ("+" + d)[0] == '+';
  }

  /** Four characters at least, which read back as the integer; more only if the integer needs them. */
  lemma FourDigitsReadBack(n: int)
    ensures |FourDigits(n)| >= 4 && Cast(FourDigits(n)) == Value(n)
    ensures |FourDigits(n)| > 4 ==> FourDigits(n) == PrintInt(n)
  {
    if n >= 0 {
      ParsePadFour(n);
      CastOfDigits(PadFour(n));
    } else {
      NegativeReadBack(-n);
    }
  }

  lemma NegativeReadBack(n: nat)
    requires n > 0
    ensures |FourDigits(0 - n)| >= 4 && Cast(FourDigits(0 - n)) == Value(0 - n)
  {
    var d := Print(n);
    var padded := if |d| < 3 then seq(3 - |d|, i => '0') + d else d;
    ParsePrint(n);
    if |d| < 3 { ParseLeadingZeros(3 - |d|, d); }
    CastOfDigits(padded);
    assert FourDigits(0 - n) == "-" + padded;
  }

  /** What a creation does once it has the maximum. */
  predicate Asks(tickets: seq<string>, prefix: string, m: Max, after: seq<string>, outcome: Outcome)
  {
    if m.CastError? then after == tickets && outcome == QueryFailed
    else
      var t := prefix + FourDigits(if m.NoRows? then 1 else m.n + 1);
      if t in tickets then after == tickets && outcome == DuplicateTicket(t)
      else after == tickets + [t] && outcome == Issued(t)
  }

  lemma CreateAsks(tickets: seq<string>, year: nat, prefix: string, m: Max)
    requires prefix == Prefix(year) && m == MaxOf(Matching(tickets, prefix))
    ensures Asks(tickets, prefix, m, Create(tickets, year).0, Create(tickets, year).1)
  {
  }

  /**
   One creation, whatever numbers the tenant has: it fails if the last four characters of some number of the year are no
   integer; otherwise it asks for the number after the greatest of them, or for 1, and gets it unless it is taken.
   */
  lemma CreateExact(tickets: seq<string>, year: nat) returns (m: Max)
    ensures Greatest(tickets, "PRJ-" + Print(year) + "-", m)
    ensures Asks(tickets, "PRJ-" + Print(year) + "-", m, Create(tickets, year).0, Create(tickets, year).1)
  {
    var prefix := "PRJ-" + Print(year) + "-";
    m := MaxOf(Matching(tickets, prefix));
    CreateAsks(tickets, year, prefix, m);
    MaxIsGreatest(tickets, prefix);
  }

  // ---- Numbers are distinct and years do not mix ------------------------------------------

  /** Within a year the numbers are distinct and, read back, increasing. */
  lemma TicketsDistinct(year: nat, i: nat, j: nat)
    ensures Parse(Ticket(year, i)[|Prefix(year)|..]) == i
    ensures Ticket(year, i) == Ticket(year, j) <==> i == j
  {
    ParsePadFour(i);
    ParsePadFour(j);
    assert Ticket(year, i)[|Prefix(year)|..] == PadFour(i);
    assert Ticket(year, j)[|Prefix(year)|..] == PadFour(j);
  }

  lemma DashEndsYear(a: string, b: string, rest: string)
    requires IsDigits(a) && IsDigits(b) && "PRJ-" + a + "-" <= "PRJ-" + b + "-" + rest
    ensures a == b
  {
    var s, t := "PRJ-" + a + "-", "PRJ-" + b + "-" + rest;
    assert forall i | 0 <= i < |a| :: s[4 + i] == a[i];
    assert forall i | 0 <= i < |b| :: t[4 + i] == b[i];
    assert forall i | 0 <= i < |s| :: s[i] == t[i];
    assert s[4 + |a|] == '-' && t[4 + |b|] == '-';
    assert forall i | 0 <= i < |a| && i < |b| :: a[i] == b[i];
    assert '-' !in DIGITS;
  }

  lemma OtherYearsUnseen(year: nat, other: nat, tail: string)
    requires Prefix(year) <= Prefix(other) + tail
    ensures year == other
  {
    DashEndsYear(Print(year), Print(other), tail);
    ParsePrint(year);
    ParsePrint(other);
  }

  // ---- The maximum read back ----------------------------------------------------------------

  lemma LastFour(prefix: string, d: string)
    requires |d| == 4
    ensures Right4(prefix + d) == d
  {
  }

  lemma TenThousand()
    ensures PadFour(10000) == "10000"
  {
    assert Print(1) == "1";
    assert Print(10) == "10";
    assert Print(100) == "100";
    assert Print(1000) == "1000";
  }

  lemma CastOfTicket(year: nat, n: nat)
    requires 1 <= n <= 10000
    ensures Cast(Right4(Ticket(year, n))) == Value(if n == 10000 then 0 else n)
  {
    if n < 10000 {
      PadFourLength(n);
      LastFour(Prefix(year), PadFour(n));
      ParsePadFour(n);
    } else {
      TenThousand();
      assert Prefix(year) + "10000" == (Prefix(year) + "1") + "0000";
      LastFour(Prefix(year) + "1", "0000");
      ParsePadFour(0);
      assert PadFour(0) == "0000";
    }
  }

  /** The maximum climbs to 9999 and stays: the five-digit number reads back as 0. */
  lemma {:induction false} MaxOfNumbers(year: nat, k: nat)
    requires k <= 10000
    ensures MaxOf(Numbers(year, k)) == if k == 0 then NoRows else Value(if k == 10000 then 9999 else k)
  {
    if k > 0 {
      assert Numbers(year, k)[..k - 1] == Numbers(year, k - 1);
      MaxOfNumbers(year, k - 1);
      CastOfTicket(year, k);
    }
  }

  lemma {:induction false} MatchingKeeps(tickets: seq<string>, prefix: string, t: string)
    requires prefix <= t
    ensures t in tickets <==> t in Matching(tickets, prefix)
  {
    if tickets != [] {
      MatchingKeeps(tickets[..|tickets| - 1], prefix, t);
      assert tickets == tickets[..|tickets| - 1] + [tickets[|tickets| - 1]];
    }
  }

  lemma MatchingAppend(tickets: seq<string>, t: string, prefix: string)
    ensures Matching(tickets + [t], prefix) == Matching(tickets, prefix) + if prefix <= t then [t] else []
  {
    assert (tickets + [t])[..|tickets|] == tickets;
  }

  lemma PrefixOfTicket(year: nat, n: nat)
    ensures Prefix(year) <= Ticket(year, n)
  {
  }

  function Capped(n: nat): nat
  {
    if n < 10000 then n else 10000
  }

  /** One more creation in a year that has issued its first k numbers. */
  lemma NextNumber(tickets: seq<string>, year: nat, k: nat)
    requires k <= 10000 && Matching(tickets, Prefix(year)) == Numbers(year, k)
    ensures Create(tickets, year) ==
      if k < 10000 then (tickets + [Ticket(year, k + 1)], Issued(Ticket(year, k + 1)))
      else (tickets, DuplicateTicket(Ticket(year, 10000)))
  {
    MaxOfNumbers(year, k);
    var n := Capped(k + 1);
    PrefixOfTicket(year, n);
    MatchingKeeps(tickets, Prefix(year), Ticket(year, n));
    if k < 10000 {
      NextIsNew(year, k);
    } else {
      assert Numbers(year, k)[9999] == Ticket(year, 10000);
    }
  }

  lemma OtherYearKeeps(tickets: seq<string>, other: nat, year: nat)
    requires other != year
    ensures Matching(Create(tickets, other).0, Prefix(year)) == Matching(tickets, Prefix(year))
  {
    var after := Create(tickets, other).0;
    if after != tickets {
      var t := after[|tickets|];
      assert after == tickets + [t];
      MatchingAppend(tickets, t, Prefix(year));
      if Prefix(year) <= t {
        OtherYearsUnseen(year, other, t[|Prefix(other)|..]);
        assert false;
      }
    }
  }

  lemma AppendedAt<T>(longer: seq<T>, s: seq<T>, x: T)
    requires |longer| == |s| + 1 && longer[|s|] == x && forall i | 0 <= i < |s| :: longer[i] == s[i]
    ensures longer == s + [x]
  {
  }

  lemma NumbersGrow(year: nat, k: nat)
    ensures Numbers(year, k + 1) == Numbers(year, k) + [Ticket(year, k + 1)]
  {
    AppendedAt(Numbers(year, k + 1), Numbers(year, k), Ticket(year, k + 1));
  }

  lemma NextIsNew(year: nat, k: nat)
    ensures Ticket(year, k + 1) !in Numbers(year, k)
  {
    forall i | 0 <= i < k ensures Numbers(year, k)[i] != Ticket(year, k + 1) {
      TicketsDistinct(year, i + 1, k + 1);
    }
  }

  lemma SameYearAdds(tickets: seq<string>, year: nat, k: nat)
    requires k <= 10000 && Matching(tickets, Prefix(year)) == Numbers(year, k)
    ensures Matching(Create(tickets, year).0, Prefix(year)) == Numbers(year, Capped(k + 1))
  {
    NextNumber(tickets, year, k);
    if k < 10000 {
      PrefixOfTicket(year, k + 1);
      MatchingAppend(tickets, Ticket(year, k + 1), Prefix(year));
      NumbersGrow(year, k);
    }
  }

  /**
   Main result. Whatever the order of creations and years, a year that starts without numbers has issued exactly its
   first n, in order, after n creations in it, and never more than 10000.
   */
  lemma {:induction false} RunExact(tickets: seq<string>, years: seq<nat>, year: nat)
    requires Matching(tickets, Prefix(year)) == []
    ensures Matching(Run(tickets, years), Prefix(year)) == Numbers(year, Capped(Calls(years, year)))
  {
    if years != [] {
      var before, last := years[..|years| - 1], years[|years| - 1];
      RunExact(tickets, before, year);
      if last == year {
        SameYearAdds(Run(tickets, before), year, Capped(Calls(before, year)));
      } else {
        OtherYearKeeps(Run(tickets, before), last, year);
      }
    }
  }

  /**
   A creation succeeds if and only if the year has seen fewer than 10000: the first 10000 get the numbers 1 to 10000,
   and from then on every creation asks for number 10000 again and is refused by the unique key.
   */
  lemma CreationExact(tickets: seq<string>, years: seq<nat>, year: nat)
    requires Matching(tickets, Prefix(year)) == []
    ensures Create(Run(tickets, years), year).1 ==
      var n := Calls(years, year);
      if n < 10000 then Issued(Ticket(year, n + 1)) else DuplicateTicket(Ticket(year, 10000))
  {
    RunExact(tickets, years, year);
    NextNumber(Run(tickets, years), year, Capped(Calls(years, year)));
  }

  lemma {:induction false} CallsInOneYear(n: nat, year: nat)
    ensures Calls(seq(n, _ => year), year) == n
  {
    if n > 0 {
      assert seq(n, _ => year)[..n - 1] == seq(n - 1, _ => year);
      CallsInOneYear(n - 1, year);
    }
  }

  /** Ten thousand creations in one year, from no tickets at all: the next one is refused. */
  lemma TenThousandAndFirst(year: nat)
    ensures Create(Run([], seq(10000, _ => year)), year).1 == DuplicateTicket(Ticket(year, 10000))
  {
    CallsInOneYear(10000, year);
    CreationExact([], seq(10000, _ => year), year);
  }
}
