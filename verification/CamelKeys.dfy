/** Key camelisation of API responses: `toCamel` on one key, `camelizeKeys` through a whole JSON value. */
module CamelKeys {
  import opened Sequences

  predicate Lower(c: char)
  {
    'a' <= c <= 'z'
  }

  predicate Upper(c: char)
  {
    'A' <= c <= 'Z'
  }

  function ToUpper(c: char): (u: char)
    requires Lower(c)
    ensures Upper(u)
  {
    c - 'a' + 'A'
  }

  function ToLower(c: char): (l: char)
    requires Upper(c)
    ensures Lower(l)
  {
    c - 'A' + 'a'
  }

  predicate NoUpper(s: string)
  {
    forall i | 0 <= i < |s| :: !Upper(s[i])
  }

  /** Replaces, left to right, an underscore and the lower-case letter after it by that letter in upper case. */
  function ToCamel(s: string): string
  {
    if s == "" then ""
    else if |s| > 1 && s[0] == '_' && Lower(s[1]) then [ToUpper(s[1])] + ToCamel(s[2..])
    else [s[0]] + ToCamel(s[1..])
  }

  /** The way back: an upper-case letter becomes an underscore and the letter in lower case. */
  function ToSnake(s: string): string
  {
    if s == "" then ""
    else (if Upper(s[0]) then ['_', ToLower(s[0])] else [s[0]]) + ToSnake(s[1..])
  }

  // ---- One key ----------------------------------------------------------------------------

  lemma {:induction false} SnakeHasNoUpper(s: string)
    ensures NoUpper(ToSnake(s))
  {
    if s != "" { SnakeHasNoUpper(s[1..]); }
  }

  /** An underscore and the letter it announces come back together. */
  lemma PairUndone(s: string)
    requires |s| > 1 && s[0] == '_' && Lower(s[1]) && ToSnake(ToCamel(s[2..])) == s[2..]
    ensures ToSnake(ToCamel(s)) == s
  {
  }

  lemma CharUndone(s: string)
    requires s != "" && !(|s| > 1 && s[0] == '_' && Lower(s[1])) && !Upper(s[0])
    requires ToSnake(ToCamel(s[1..])) == s[1..]
    ensures ToSnake(ToCamel(s)) == s
  {
  }

  lemma {:induction false} SnakeOfCamel(s: string)
    requires NoUpper(s)
    ensures ToSnake(ToCamel(s)) == s
  {
    if s == "" {
    } else if |s| > 1 && s[0] == '_' && Lower(s[1]) {
      SnakeOfCamel(s[2..]);
      PairUndone(s);
    } else {
      SnakeOfCamel(s[1..]);
      CharUndone(s);
    }
  }

  /** `toCamel` can be undone exactly on the keys without an upper-case letter. */
  lemma CamelUndoneExactly(s: string)
    ensures ToSnake(ToCamel(s)) == s <==> NoUpper(s)
  {
    SnakeHasNoUpper(ToCamel(s));
    if NoUpper(s) { SnakeOfCamel(s); }
  }

  /** An underscore left standing is not followed by a lower-case letter. */
  lemma {:induction false} NothingLeftToJoin(s: string)
    ensures var c := ToCamel(s);
      && (forall i | 0 <= i < |c| - 1 :: c[i] == '_' ==> !Lower(c[i + 1]))
      && (c == "" <==> s == "")
      && (c != "" && Lower(c[0]) ==> s[0] == c[0])
  {
    if s == "" {
    } else if |s| > 1 && s[0] == '_' && Lower(s[1]) {
      NothingLeftToJoin(s[2..]);
    } else {
      NothingLeftToJoin(s[1..]);
    }
  }

  lemma {:induction false} CamelFixpoint(s: string)
    requires forall i | 0 <= i < |s| - 1 :: s[i] == '_' ==> !Lower(s[i + 1])
    ensures ToCamel(s) == s
  {
    if s != "" { CamelFixpoint(s[1..]); }
  }

  lemma {:induction false} CamelIdempotent(s: string)
    ensures ToCamel(ToCamel(s)) == ToCamel(s)
  {
    NothingLeftToJoin(s);
    CamelFixpoint(ToCamel(s));
  }

  /** How many characters the replacement takes at the start of a text. */
  function Taken(s: string): (n: nat)
    requires s != ""
    ensures n <= |s|
  {
    if |s| > 1 && s[0] == '_' && Lower(s[1]) then 2 else 1
  }

  /** What it puts there. */
  function Put(s: string): string
    requires s != ""
  {
    if Taken(s) == 2 then [(s[1] as int - 32) as char] else [s[0]]
  }

  lemma CamelStart(s: string)
    requires s != ""
    ensures ToCamel(s) == Put(s) + ToCamel(s[Taken(s)..])
  {
  }

  lemma StartAlike(a: string, b: string)
    requires a != "" && a[|a| - 1] != '_'
    ensures Taken(a + b) == Taken(a) && Put(a + b) == Put(a) && (a + b)[Taken(a)..] == a[Taken(a)..] + b
  {
  }

  /** Texts may be camelised apart, unless the cut could part an underscore from its letter. */
  lemma {:induction false} CamelApart(a: string, b: string)
    requires a != "" ==> a[|a| - 1] != '_'
    ensures ToCamel(a + b) == ToCamel(a) + ToCamel(b)
    decreases |a|
  {
    if a == "" {
      assert a + b == b;
    } else {
      var rest := a[Taken(a)..];
      CamelStart(a + b);
      CamelStart(a);
      StartAlike(a, b);
      CamelApart(rest, b);
      Assoc(Put(a), ToCamel(rest), ToCamel(b));
    }
  }

  /** An underscore before a lower-case letter joins what comes before it and after it, wherever it stands. */
  lemma CamelJoins(a: string, c: char, b: string)
    requires Lower(c) && (a != "" ==> a[|a| - 1] != '_')
    ensures ToCamel(a + (['_', c] + b)) == ToCamel(a) + ([(c as int - 32) as char] + ToCamel(b))
  {
    var joined := ['_', c] + b;
    CamelApart(a, joined);
    CamelStart(joined);
    assert joined[2..] == b;
  }

  // ---- A whole value ----------------------------------------------------------------------

  /** A JSON value; a scalar is anything that is neither an array nor an object. */
  datatype Json = Scalar(text: string) | Array(items: seq<Json>) | Object(entries: seq<Entry>)

  datatype Entry = Entry(key: string, value: Json)

  /** Setting a property: an existing one keeps its place and changes value, a new one goes last. */
  function SetEntry(entries: seq<Entry>, e: Entry): seq<Entry>
  {
    if entries == [] then [e]
    else if entries[0].key == e.key then [e] + entries[1..]
    else [entries[0]] + SetEntry(entries[1..], e)
  }

  /** Object.fromEntries: the entries set one after the other. */
  function FromEntries(entries: seq<Entry>): seq<Entry>
  {
    if entries == [] then [] else SetEntry(FromEntries(entries[..|entries| - 1]), entries[|entries| - 1])
  }

  /** `camelizeKeys`, for any renaming of keys. */
  function Rename(f: string -> string, j: Json): Json
  {
    match j
    case Scalar(_) => j
    case Array(items) => Array(seq(|items|, i requires 0 <= i < |items| => Rename(f, items[i])))
    case Object(entries) => Object(FromEntries(Renamed(f, entries)))
  }

  function Renamed(f: string -> string, entries: seq<Entry>): seq<Entry>
  {
    seq(|entries|, i requires 0 <= i < |entries| => Entry(f(entries[i].key), Rename(f, entries[i].value)))
  }

  function CamelizeKeys(j: Json): Json
  {
    Rename(ToCamel, j)
  }

  function SnakeKeys(j: Json): Json
  {
    Rename(ToSnake, j)
  }

  predicate HasKey(entries: seq<Entry>, key: string)
  {
    exists i | 0 <= i < |entries| :: entries[i].key == key
  }

  predicate DistinctKeys(entries: seq<Entry>)
  {
    forall i, j | 0 <= i < j < |entries| :: entries[i].key != entries[j].key
  }

  /** An object never holds the same key twice. */
  predicate WellFormed(j: Json)
  {
    match j
    case Scalar(_) => true
    case Array(items) => forall i | 0 <= i < |items| :: WellFormed(items[i])
    case Object(entries) => DistinctKeys(entries) && forall i | 0 <= i < |entries| :: WellFormed(entries[i].value)
  }

  /** Every key at every depth satisfies p. */
  predicate AllKeys(p: string -> bool, j: Json)
  {
    match j
    case Scalar(_) => true
    case Array(items) => forall i | 0 <= i < |items| :: AllKeys(p, items[i])
    case Object(entries) => forall i | 0 <= i < |entries| :: p(entries[i].key) && AllKeys(p, entries[i].value)
  }

  /** At every depth, the keys of one object are renamed to different keys. */
  predicate CollisionFree(f: string -> string, j: Json)
  {
    match j
    case Scalar(_) => true
    case Array(items) => forall i | 0 <= i < |items| :: CollisionFree(f, items[i])
    case Object(entries) =>
      && (forall i, k | 0 <= i < k < |entries| :: f(entries[i].key) != f(entries[k].key))
      && (forall i | 0 <= i < |entries| :: CollisionFree(f, entries[i].value))
  }

  /** How many object entries the value holds, at any depth. */
  function Count(j: Json): nat
  {
    match j
    case Scalar(_) => 0
    case Array(items) => CountItems(items)
    case Object(entries) => CountEntries(entries)
  }

  function CountItems(items: seq<Json>): nat
  {
    if items == [] then 0 else Count(items[0]) + CountItems(items[1..])
  }

  function CountEntries(entries: seq<Entry>): nat
  {
    if entries == [] then 0 else 1 + Count(entries[0].value) + CountEntries(entries[1..])
  }

  // ---- Object.fromEntries -----------------------------------------------------------------

  lemma {:induction false} SetEntryKeys(entries: seq<Entry>, e: Entry)
    ensures forall k :: HasKey(SetEntry(entries, e), k) <==> HasKey(entries, k) || k == e.key
    ensures DistinctKeys(entries) ==> DistinctKeys(SetEntry(entries, e))
  {
    var s := SetEntry(entries, e);
    if entries != [] && entries[0].key != e.key {
      var rest := SetEntry(entries[1..], e);
      SetEntryKeys(entries[1..], e);
      forall k ensures HasKey(s, k) <==> HasKey(entries, k) || k == e.key {
        HeadKey(entries, k);
        HeadKey(s, k);
      }
      if DistinctKeys(entries) {
        forall i | 0 <= i < |rest| ensures rest[i].key != entries[0].key {
          assert HasKey(rest, rest[i].key);
        }
      }
    } else {
      assert s[0].key == e.key;
      forall k ensures HasKey(s, k) <==> HasKey(entries, k) || k == e.key {
        HeadKey(s, k);
        if entries != [] { HeadKey(entries, k); }
      }
    }
  }

  lemma HeadKey(entries: seq<Entry>, k: string)
    requires entries != []
    ensures HasKey(entries, k) <==> entries[0].key == k || HasKey(entries[1..], k)
  {
  }

  lemma LastKey(entries: seq<Entry>, k: string)
    requires entries != []
    ensures HasKey(entries, k) <==> HasKey(entries[..|entries| - 1], k) || entries[|entries| - 1].key == k
  {
  }

  lemma {:induction false} FromEntriesKeys(entries: seq<Entry>)
    ensures forall k :: HasKey(FromEntries(entries), k) <==> HasKey(entries, k)
    ensures DistinctKeys(FromEntries(entries))
  {
    if entries != [] {
      var before, last := entries[..|entries| - 1], entries[|entries| - 1];
      FromEntriesKeys(before);
      SetEntryKeys(FromEntries(before), last);
      forall k ensures HasKey(entries, k) <==> HasKey(before, k) || last.key == k {
        LastKey(entries, k);
      }
    }
  }

  lemma {:induction false} SetNewEntry(entries: seq<Entry>, e: Entry)
    requires !HasKey(entries, e.key)
    ensures SetEntry(entries, e) == entries + [e]
  {
    if entries != [] {
      HeadKey(entries, e.key);
      SetNewEntry(entries[1..], e);
      assert entries + [e] == [entries[0]] + (entries[1..] + [e]);
    }
  }

  /** Different keys: nothing is overwritten. */
  lemma {:induction false} FromEntriesKeeps(entries: seq<Entry>)
    requires DistinctKeys(entries)
    ensures FromEntries(entries) == entries
  {
    if entries != [] {
      var before, last := entries[..|entries| - 1], entries[|entries| - 1];
      FromEntriesKeeps(before);
      SetNewEntry(before, last);
      assert entries == before + [last];
    }
  }

  /** Of the entries with one key, the last is kept. */
  lemma {:induction false} LastEntryWins(entries: seq<Entry>, i: nat)
    requires i < |entries| && forall k | i < k < |entries| :: entries[k].key != entries[i].key
    ensures entries[i] in FromEntries(entries)
    decreases |entries|
  {
    var before, last := entries[..|entries| - 1], entries[|entries| - 1];
    if i < |before| {
      LastEntryWins(before, i);
      SetEntryHolds(FromEntries(before), last, entries[i]);
    } else {
      SetEntryHolds(FromEntries(before), last, last);
    }
  }

  lemma {:induction false} SetEntryHolds(entries: seq<Entry>, e: Entry, x: Entry)
    requires x == e || (x in entries && x.key != e.key)
    ensures x in SetEntry(entries, e)
  {
    if entries != [] && entries[0].key != e.key {
      if x != entries[0] { SetEntryHolds(entries[1..], e, x); }
    } else if entries != [] {
      assert entries == [entries[0]] + entries[1..];
    }
  }

  /**
   What becomes of a value: scalars stay, arrays keep their length and order, and an object holds, under different keys,
   its entries renamed; where several get the same key, the last of them, and nothing else.
   */
  lemma RenameExact(f: string -> string, j: Json)
    ensures match j
      case Scalar(_) => Rename(f, j) == j
      case Array(items) =>
        && Rename(f, j).Array? && |Rename(f, j).items| == |items|
        && (forall i | 0 <= i < |items| :: Rename(f, j).items[i] == Rename(f, items[i]))
      case Object(entries) =>
        && Rename(f, j).Object? && DistinctKeys(Rename(f, j).entries)
        && (forall i | 0 <= i < |Rename(f, j).entries| :: FromOne(f, entries, Rename(f, j).entries[i]))
        && (forall i | 0 <= i < |entries| && (forall k | i < k < |entries| :: f(entries[k].key) != f(entries[i].key)) ::
              Entry(f(entries[i].key), Rename(f, entries[i].value)) in Rename(f, j).entries)
  {
    if j.Object? {
      var entries, renamed := j.entries, Renamed(f, j.entries);
      FromEntriesKeys(renamed);
      var q := (e: Entry) => FromOne(f, entries, e);
      forall i | 0 <= i < |renamed| ensures q(renamed[i]) {
        assert entries[i] == entries[i];
      }
      FromEntriesAll(renamed, q);
      forall i | 0 <= i < |entries| && (forall k | i < k < |entries| :: f(entries[k].key) != f(entries[i].key))
        ensures Entry(f(entries[i].key), Rename(f, entries[i].value)) in Rename(f, j).entries
      {
        LastEntryWins(renamed, i);
      }
    }
  }

  /** The entry is one of these, renamed. */
  predicate FromOne(f: string -> string, entries: seq<Entry>, e: Entry)
  {
    exists i | 0 <= i < |entries| :: e.key == f(entries[i].key) && e.value == Rename(f, entries[i].value)
  }

  // ---- Undoing it -------------------------------------------------------------------------

  /** If g undoes f on every key, renaming by g undoes renaming by f, at every depth. */
  lemma {:induction false} RenameUndone(f: string -> string, g: string -> string, p: string -> bool, j: Json)
    requires WellFormed(j) && AllKeys(p, j)
    requires forall k :: p(k) ==> g(f(k)) == k
    ensures Rename(g, Rename(f, j)) == j
  {
    match j
    case Scalar(_) =>
    case Array(items) =>
      forall i | 0 <= i < |items| ensures Rename(g, Rename(f, items[i])) == items[i] {
        RenameUndone(f, g, p, items[i]);
      }
      assert Rename(g, Rename(f, j)).items == items;
    case Object(entries) =>
      var renamed := Renamed(f, entries);
      forall i, k | 0 <= i < k < |entries| ensures renamed[i].key != renamed[k].key {
        assert g(f(entries[i].key)) == entries[i].key;
      }
      FromEntriesKeeps(renamed);
      forall i | 0 <= i < |entries| ensures Rename(g, Rename(f, entries[i].value)) == entries[i].value {
        RenameUndone(f, g, p, entries[i].value);
      }
      assert Renamed(g, renamed) == entries;
      FromEntriesKeeps(entries);
  }

  /** Every entry of the result is one of those set. */
  lemma {:induction false} FromEntriesAll(entries: seq<Entry>, q: Entry -> bool)
    requires forall i | 0 <= i < |entries| :: q(entries[i])
    ensures forall i | 0 <= i < |FromEntries(entries)| :: q(FromEntries(entries)[i])
  {
    if entries != [] {
      var before := FromEntries(entries[..|entries| - 1]);
      FromEntriesAll(entries[..|entries| - 1], q);
      SetEntryAll(before, entries[|entries| - 1], q);
    }
  }

  lemma {:induction false} SetEntryAll(entries: seq<Entry>, e: Entry, q: Entry -> bool)
    requires q(e) && forall i | 0 <= i < |entries| :: q(entries[i])
    ensures forall i | 0 <= i < |SetEntry(entries, e)| :: q(SetEntry(entries, e)[i])
  {
    if entries != [] { SetEntryAll(entries[1..], e, q); }
  }

  /** What every new key satisfies holds of every key of the renamed value, and no object repeats a key. */
  lemma {:induction false} RenamedKeys(f: string -> string, p: string -> bool, j: Json)
    requires forall k :: p(f(k))
    ensures AllKeys(p, Rename(f, j)) && WellFormed(Rename(f, j))
  {
    match j
    case Scalar(_) =>
    case Array(items) =>
      forall i | 0 <= i < |items| ensures AllKeys(p, Rename(f, items[i])) && WellFormed(Rename(f, items[i])) {
        RenamedKeys(f, p, items[i]);
      }
    case Object(entries) =>
      var q := (e: Entry) => p(e.key) && AllKeys(p, e.value) && WellFormed(e.value);
      forall i | 0 <= i < |entries| ensures q(Renamed(f, entries)[i]) {
        RenamedKeys(f, p, entries[i].value);
      }
      FromEntriesAll(Renamed(f, entries), q);
      FromEntriesKeys(Renamed(f, entries));
  }

  /**
   Main result. Camelising a value can be undone if and only if no key, at any depth, has an upper-case letter.
   */
  lemma CamelizeUndoneExactly(j: Json)
    requires WellFormed(j)
    ensures SnakeKeys(CamelizeKeys(j)) == j <==> AllKeys(NoUpper, j)
  {
    forall k ensures NoUpper(ToSnake(k)) {
      SnakeHasNoUpper(k);
    }
    RenamedKeys(ToSnake, NoUpper, CamelizeKeys(j));
    if AllKeys(NoUpper, j) {
      forall k | NoUpper(k) ensures ToSnake(ToCamel(k)) == k {
        SnakeOfCamel(k);
      }
      RenameUndone(ToCamel, ToSnake, NoUpper, j);
    }
  }

  /** A renaming that leaves every key of a value alone leaves the value alone. */
  lemma {:induction false} RenameNothing(f: string -> string, p: string -> bool, j: Json)
    requires WellFormed(j) && AllKeys(p, j)
    requires forall k :: p(k) ==> f(k) == k
    ensures Rename(f, j) == j
  {
    match j
    case Scalar(_) =>
    case Array(items) =>
      forall i | 0 <= i < |items| ensures Rename(f, items[i]) == items[i] {
        RenameNothing(f, p, items[i]);
      }
      assert Rename(f, j).items == items;
    case Object(entries) =>
      forall i | 0 <= i < |entries| ensures Renamed(f, entries)[i] == entries[i] {
        RenameNothing(f, p, entries[i].value);
      }
      assert Renamed(f, entries) == entries;
      FromEntriesKeeps(entries);
  }

  /** Camelising twice is camelising once, whatever the keys. */
  lemma CamelizeIdempotent(j: Json)
    ensures CamelizeKeys(CamelizeKeys(j)) == CamelizeKeys(j)
  {
    forall k ensures ToCamel(ToCamel(k)) == ToCamel(k) {
      CamelIdempotent(k);
    }
    var fixed := (k: string) => ToCamel(k) == k;
    RenamedKeys(ToCamel, fixed, j);
    RenameNothing(ToCamel, fixed, CamelizeKeys(j));
  }

  // ---- Losing entries ---------------------------------------------------------------------

  lemma {:induction false} CountLast(entries: seq<Entry>)
    requires entries != []
    ensures CountEntries(entries) == CountEntries(entries[..|entries| - 1]) + 1 + Count(entries[|entries| - 1].value)
  {
    if |entries| > 1 {
      CountLast(entries[1..]);
      assert entries[1..][..|entries| - 2] == entries[..|entries| - 1][1..];
    }
  }

  /** Overwriting an entry loses at least that entry. */
  lemma {:induction false} SetEntryCount(entries: seq<Entry>, e: Entry)
    ensures var n := CountEntries(entries) + 1 + Count(e.value);
      if HasKey(entries, e.key) then CountEntries(SetEntry(entries, e)) < n else CountEntries(SetEntry(entries, e)) == n
  {
    if entries != [] {
      HeadKey(entries, e.key);
      SetEntryCount(entries[1..], e);
      var s := SetEntry(entries, e);
      if entries[0].key == e.key {
        assert s[1..] == entries[1..];
      } else {
        assert s[1..] == SetEntry(entries[1..], e);
      }
    }
  }

  lemma {:induction false} FromEntriesCount(entries: seq<Entry>)
    ensures CountEntries(FromEntries(entries)) <= CountEntries(entries)
    ensures CountEntries(FromEntries(entries)) == CountEntries(entries) <==> DistinctKeys(entries)
  {
    if entries != [] {
      var before, last := entries[..|entries| - 1], entries[|entries| - 1];
      FromEntriesCount(before);
      FromEntriesKeys(before);
      CountLast(entries);
      SetEntryCount(FromEntries(before), last);
      if HasKey(before, last.key) {
        var i :| 0 <= i < |before| && before[i].key == last.key;
        assert entries[i].key == entries[|entries| - 1].key;
      }
    }
  }

  /**
   Main result. Renaming never adds entries, and it keeps all of them, at every depth, if and only if no two keys of
   one object are renamed to the same key.
   */
  lemma {:induction false} NoEntryLostExactly(f: string -> string, j: Json)
    ensures Count(Rename(f, j)) <= Count(j)
    ensures Count(Rename(f, j)) == Count(j) <==> CollisionFree(f, j)
  {
    match j
    case Scalar(_) =>
    case Array(items) => ItemsKept(f, items);
    case Object(entries) =>
      EntriesKept(f, entries);
      FromEntriesCount(Renamed(f, entries));
      var renamed := Renamed(f, entries);
      assert forall i | 0 <= i < |entries| :: renamed[i].key == f(entries[i].key);
  }

  lemma {:induction false} ItemsKept(f: string -> string, items: seq<Json>)
    ensures var renamed := seq(|items|, i requires 0 <= i < |items| => Rename(f, items[i]));
      && CountItems(renamed) <= CountItems(items)
      && (CountItems(renamed) == CountItems(items) <==> forall i | 0 <= i < |items| :: CollisionFree(f, items[i]))
  {
    if items != [] {
      NoEntryLostExactly(f, items[0]);
      ItemsKept(f, items[1..]);
      var renamed := seq(|items|, i requires 0 <= i < |items| => Rename(f, items[i]));
      assert renamed[1..] == seq(|items| - 1, i requires 0 <= i < |items| - 1 => Rename(f, items[1..][i]));
      assert forall i | 1 <= i < |items| :: items[i] == items[1..][i - 1];
    }
  }

  lemma {:induction false} EntriesKept(f: string -> string, entries: seq<Entry>)
    ensures CountEntries(Renamed(f, entries)) <= CountEntries(entries)
    ensures CountEntries(Renamed(f, entries)) == CountEntries(entries)
        <==> forall i | 0 <= i < |entries| :: CollisionFree(f, entries[i].value)
  {
    if entries != [] {
      NoEntryLostExactly(f, entries[0].value);
      EntriesKept(f, entries[1..]);
      assert Renamed(f, entries)[1..] == Renamed(f, entries[1..]);
      assert forall i | 1 <= i < |entries| :: entries[i] == entries[1..][i - 1];
    }
  }

  /** Keys without upper-case letters never collide, so `camelizeKeys` loses nothing of such a value. */
  lemma {:induction false} SnakeKeysNeverCollide(j: Json)
    requires WellFormed(j) && AllKeys(NoUpper, j)
    ensures CollisionFree(ToCamel, j) && Count(CamelizeKeys(j)) == Count(j)
  {
    match j {
      case Scalar(_) =>
      case Array(items) =>
        forall i | 0 <= i < |items| ensures CollisionFree(ToCamel, items[i]) {
          SnakeKeysNeverCollide(items[i]);
        }
      case Object(entries) =>
        forall i | 0 <= i < |entries| ensures CollisionFree(ToCamel, entries[i].value) {
          SnakeKeysNeverCollide(entries[i].value);
        }
        forall i, k | 0 <= i < k < |entries| ensures ToCamel(entries[i].key) != ToCamel(entries[k].key) {
          SnakeOfCamel(entries[i].key);
          SnakeOfCamel(entries[k].key);
        }
    }
    NoEntryLostExactly(ToCamel, j);
  }

  lemma MixedKeysMeet()
    ensures ToCamel("a_b") == ToCamel("aB")
  {
  }

  /** A response holding both `a_b` and `aB` in one object loses an entry. */
  lemma MixedKeysLose(x: Json, y: Json)
    ensures var j := Object([Entry("a_b", x), Entry("aB", y)]); Count(CamelizeKeys(j)) < Count(j)
  {
    MixedKeysMeet();
    var entries := [Entry("a_b", x), Entry("aB", y)];
    assert ToCamel(entries[0].key) == ToCamel(entries[1].key);
    NoEntryLostExactly(ToCamel, Object(entries));
  }
}
