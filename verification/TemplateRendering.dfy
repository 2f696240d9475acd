/**
 Customer messages: `_render_template` fills a template by six chained `replace` calls.

 The meaning a template author relies on is simultaneous substitution: each placeholder becomes
 its field's value and the value's own text is left alone. This module says for which values the
 chain gives exactly that.
 */
module TemplateRendering {
  import opened TextReplace
  import opened Decimal
  import opened Optional

  /** The columns of an outage that a message can mention; `None` is SQL NULL. */
  datatype Outage = Outage(
    reference: Maybe<string>, title: Maybe<string>, severity: Maybe<string>, status: Maybe<string>, oltReference: Maybe<string>, affectedSubscribers: int)

  /** Python's `field or default`: None and "" both take the default. */
  function Or(field: Maybe<string>, default: string): string
  {
    if field.None? || field.value == "" then default else field.value
  }

  /** The placeholder names, in the order of the chain. */
  const FIELDS: seq<string> := ["reference", "title", "severity", "status", "olt", "subscribers"]

  function Values(o: Outage): (v: seq<string>)
    ensures |v| == |FIELDS|
  {
    [Or(o.reference, ""), Or(o.title, ""), Or(o.severity, ""), Or(o.status, ""), Or(o.oltReference, "N/A"),
     PrintInt(o.affectedSubscribers)]
  }

  function RenderTemplate(template: string, o: Outage): string
  {
    var t0 := Replace(template, "{reference}", Or(o.reference, ""));
    var t1 := Replace(t0, "{title}", Or(o.title, ""));
    var t2 := Replace(t1, "{severity}", Or(o.severity, ""));
    var t3 := Replace(t2, "{status}", Or(o.status, ""));
    var t4 := Replace(t3, "{olt}", Or(o.oltReference, "N/A"));
    Replace(t4, "{subscribers}", PrintInt(o.affectedSubscribers))
  }

  // ---- Templates as their author reads them ----------------------------------------------

  /** A stretch of text, or `{name}`. */
  datatype Piece = Literal(text: string) | Field(name: string)

  function Placeholder(name: string): (p: string)
    ensures |p| == |name| + 2
  {
    "{" + name + "}"
  }

  function PieceText(p: Piece): string
  {
    match p
    case Literal(text) => text
    case Field(name) => Placeholder(name)
  }

  function Text(pieces: seq<Piece>): string
  {
    if pieces == [] then "" else PieceText(pieces[0]) + Text(pieces[1..])
  }

  /** Every `{` opens a `{name}`, known or not. A stray `}` is harmless. */
  predicate WellFormed(pieces: seq<Piece>)
  {
    forall i | 0 <= i < |pieces| :: WellFormedPiece(pieces[i])
  }

  predicate WellFormedPiece(p: Piece)
  {
    match p
    case Literal(text) => '{' !in text
    case Field(name) => '{' !in name && '}' !in name
  }

  function FieldIndex(name: string): (i: nat)
    ensures i <= |FIELDS|
    ensures i < |FIELDS| ==> FIELDS[i] == name
    ensures i == |FIELDS| ==> name !in FIELDS
  {
    if name == "reference" then 0 else if name == "title" then 1 else if name == "severity" then 2
    else if name == "status" then 3 else if name == "olt" then 4 else if name == "subscribers" then 5 else 6
  }

  /** The piece once the first `k` fields have their values; unknown names stay as they are. */
  function Filled(p: Piece, values: seq<string>, k: nat): string
    requires |values| == |FIELDS| && k <= |FIELDS|
  {
    if p.Field? && FieldIndex(p.name) < k then values[FieldIndex(p.name)] else PieceText(p)
  }

  function FillFirst(pieces: seq<Piece>, values: seq<string>, k: nat): string
    requires |values| == |FIELDS| && k <= |FIELDS|
  {
    if pieces == [] then "" else Filled(pieces[0], values, k) + FillFirst(pieces[1..], values, k)
  }

  /** Simultaneous substitution: the reference meaning of a template. */
  function Substitute(pieces: seq<Piece>, values: seq<string>): string
    requires |values| == |FIELDS|
  {
    FillFirst(pieces, values, |FIELDS|)
  }

  // ---- When the chain is simultaneous substitution --------------------------------------

  /**
   The value of field `i` spells a later placeholder, or ends in the beginning of one, so that a later
   `replace` can act on it.
   */
  predicate Leaks(i: nat, value: string)
  {
    exists j | 0 <= j < |FIELDS| :: i < j && !Inert(value, Placeholder(FIELDS[j]))
  }

  predicate NoneLeaks(values: seq<string>)
    requires |values| == |FIELDS|
  {
    forall i | 0 <= i < |values| :: !Leaks(i, values[i])
  }

  lemma OtherPlaceholderInert(name: string, j: nat)
    requires j < |FIELDS| && name != FIELDS[j]
    requires '{' !in name && '}' !in name
    ensures Inert(Placeholder(name), Placeholder(FIELDS[j]))
  {
    var a, b := Placeholder(name), Placeholder(FIELDS[j]);
    forall p | 0 <= p < |a| ensures !Compatible(a[p..], b) {
      if p > 0 {
        assert a[p..][0] == a[p] != '{' by { if p <= |name| { assert a[p] == name[p - 1]; } }
        Clash(a[p..], b, 0);
      } else {
        assert a[0..] == a;
        FieldNamesPlain(j);
        var other := FIELDS[j];
        var m := if |name| < |other| then |name| else |other|;
        if i :| 0 <= i < m && name[i] != other[i] {
          Clash(a, b, i + 1);
        } else {
          assert |name| == |other| ==> name == other;
          Clash(a, b, m + 1);
        }
      }
    }
  }

  lemma FieldNamesPlain(j: nat)
    requires j < |FIELDS|
    ensures '{' !in FIELDS[j] && '}' !in FIELDS[j] && FieldIndex(FIELDS[j]) == j
  {
  }

  /** A field of a well-formed template, as filled so far, cannot be touched by the next `replace`. */
  lemma FilledInert(p: Piece, values: seq<string>, k: nat)
    requires |values| == |FIELDS| && k < |FIELDS| && NoneLeaks(values) && WellFormedPiece(p)
    requires p != Field(FIELDS[k])
    ensures Inert(Filled(p, values, k), Placeholder(FIELDS[k]))
  {
    if p.Literal? {
      NoFirstCharInert(p.text, Placeholder(FIELDS[k]));
    } else if FieldIndex(p.name) < k {
      assert !Leaks(FieldIndex(p.name), values[FieldIndex(p.name)]);
    } else {
      OtherPlaceholderInert(p.name, k);
    }
  }

  /** One `replace` of the chain fills one more field. */
  lemma {:induction false} ChainStep(pieces: seq<Piece>, values: seq<string>, k: nat)
    requires |values| == |FIELDS| && k < |FIELDS| && NoneLeaks(values) && WellFormed(pieces)
    ensures Replace(FillFirst(pieces, values, k), Placeholder(FIELDS[k]), values[k]) == FillFirst(pieces, values, k + 1)
  {
    if pieces != [] {
      var p, rest := pieces[0], FillFirst(pieces[1..], values, k);
      FieldNamesPlain(k);
      ChainStep(pieces[1..], values, k);
      if p == Field(FIELDS[k]) {
        ReplaceHere(rest, Placeholder(FIELDS[k]), values[k]);
      } else {
        FilledInert(p, values, k);
        CopyInert(Filled(p, values, k), rest, Placeholder(FIELDS[k]), values[k]);
        assert Filled(p, values, k + 1) == Filled(p, values, k);
      }
    }
  }

  /** The chain of `replace` calls, as a fold over the fields from `k` on. */
  function Chain(text: string, values: seq<string>, k: nat): string
    requires |values| == |FIELDS| && k <= |FIELDS|
    decreases |FIELDS| - k
  {
    if k == |FIELDS| then text
    else Chain(Replace(text, Placeholder(FIELDS[k]), values[k]), values, k + 1)
  }

  lemma PlaceholderTexts()
    ensures Placeholder(FIELDS[0]) == "{reference}" && Placeholder(FIELDS[1]) == "{title}"
    ensures Placeholder(FIELDS[2]) == "{severity}" && Placeholder(FIELDS[3]) == "{status}"
    ensures Placeholder(FIELDS[4]) == "{olt}" && Placeholder(FIELDS[5]) == "{subscribers}"
  {
  }

  lemma RenderIsChain(template: string, o: Outage)
    ensures RenderTemplate(template, o) == Chain(template, Values(o), 0)
  {
    var v := Values(o);
    PlaceholderTexts();
    var t0 := Replace(template, Placeholder(FIELDS[0]), v[0]);
    var t1 := Replace(t0, Placeholder(FIELDS[1]), v[1]);
    var t2 := Replace(t1, Placeholder(FIELDS[2]), v[2]);
    var t3 := Replace(t2, Placeholder(FIELDS[3]), v[3]);
    var t4 := Replace(t3, Placeholder(FIELDS[4]), v[4]);
    assert Chain(template, v, 0) == Chain(t0, v, 1) == Chain(t1, v, 2) == Chain(t2, v, 3)
        == Chain(t3, v, 4) == Chain(t4, v, 5);
  }

  lemma {:induction false} ChainFills(pieces: seq<Piece>, values: seq<string>, k: nat)
    requires |values| == |FIELDS| && k <= |FIELDS| && NoneLeaks(values) && WellFormed(pieces)
    ensures Chain(FillFirst(pieces, values, k), values, k) == Substitute(pieces, values)
    decreases |FIELDS| - k
  {
    if k < |FIELDS| {
      ChainStep(pieces, values, k);
      ChainFills(pieces, values, k + 1);
    }
  }

  lemma {:induction false} FillNone(pieces: seq<Piece>, values: seq<string>)
    requires |values| == |FIELDS|
    ensures FillFirst(pieces, values, 0) == Text(pieces)
  {
    if pieces != [] { FillNone(pieces[1..], values); }
  }

  /** If no value leaks, every well-formed template renders as simultaneous substitution. */
  lemma RenderIsSubstitution(pieces: seq<Piece>, o: Outage)
    requires WellFormed(pieces) && NoneLeaks(Values(o))
    ensures RenderTemplate(Text(pieces), o) == Substitute(pieces, Values(o))
  {
    RenderIsChain(Text(pieces), o);
    FillNone(pieces, Values(o));
    ChainFills(pieces, Values(o), 0);
  }

  /** The everyday case: a value without `{` never leaks. */
  lemma PlainNeverLeaks(i: nat, value: string)
    requires '{' !in value
    ensures !Leaks(i, value)
  {
    forall j | 0 <= j < |FIELDS| ensures Inert(value, Placeholder(FIELDS[j])) {
      NoFirstCharInert(value, Placeholder(FIELDS[j]));
    }
  }

  // ---- The condition is exact ------------------------------------------------------------

  /** The other five values hold no `{`. */
  predicate OthersPlain(values: seq<string>, i: nat)
  {
    forall k | 0 <= k < |values| && k != i :: '{' !in values[k]
  }

  /** Every well-formed template renders correctly whenever field `i` has this value and the rest are plain. */
  ghost predicate AlwaysSubstitutes(i: nat, value: string)
    requires i < |FIELDS|
  {
    forall pieces: seq<Piece>, o: Outage
      | WellFormed(pieces) && Values(o)[i] == value && OthersPlain(Values(o), i) ::
      RenderTemplate(Text(pieces), o) == Substitute(pieces, Values(o))
  }

  lemma {:induction false} ChainShrinks(text: string, values: seq<string>, k: nat, j: nat)
    requires |values| == |FIELDS| && k <= j < |FIELDS|
    requires forall m | k <= m < |FIELDS| :: |values[m]| < |Placeholder(FIELDS[m])|
    requires Contains(text, Placeholder(FIELDS[j]))
    ensures |Chain(text, values, k)| < |text|
    decreases |FIELDS| - k
  {
    var next := Replace(text, Placeholder(FIELDS[k]), values[k]);
    ReplaceShrinks(text, Placeholder(FIELDS[k]), values[k]);
    if k < j && |next| == |text| {
      ChainShrinks(next, values, k + 1, j);
    } else {
      ChainNeverGrows(next, values, k + 1);
    }
  }

  lemma {:induction false} ChainNeverGrows(text: string, values: seq<string>, k: nat)
    requires |values| == |FIELDS| && k <= |FIELDS|
    requires forall m | k <= m < |FIELDS| :: |values[m]| < |Placeholder(FIELDS[m])|
    ensures |Chain(text, values, k)| <= |text|
    decreases |FIELDS| - k
  {
    if k < |FIELDS| {
      ReplaceShrinks(text, Placeholder(FIELDS[k]), values[k]);
      ChainNeverGrows(Replace(text, Placeholder(FIELDS[k]), values[k]), values, k + 1);
    }
  }

  /** Up to field `i` the chain leaves `{field i}` followed by plain text alone. */
  lemma {:induction false} ChainReaches(i: nat, k: nat, rest: string, values: seq<string>)
    requires |values| == |FIELDS| && k <= i < |FIELDS| && '{' !in rest
    ensures Chain(Placeholder(FIELDS[i]) + rest, values, k) == Chain(values[i] + rest, values, i + 1)
    decreases i - k
  {
    var pat := Placeholder(FIELDS[k]);
    FieldNamesPlain(i);
    FieldNamesPlain(k);
    NoFirstCharInert(rest, pat);
    CopyInert(rest, "", pat, values[k]);
    assert rest + "" == rest;
    if k == i {
      ReplaceHere(rest, pat, values[k]);
    } else {
      OtherPlaceholderInert(FIELDS[i], k);
      CopyInert(Placeholder(FIELDS[i]), rest, pat, values[k]);
      ChainReaches(i, k + 1, rest, values);
    }
  }

  /** The outage with the given value in field `i` and nothing in the others. */
  function OnlyField(i: nat, value: string): (o: Outage)
    requires i < 5 && value != ""
    ensures Values(o)[i] == value
    ensures forall k | 0 <= k < |FIELDS| && k != i :: Values(o)[k] == (if k == 4 then "N/A" else if k == 5 then "0" else "")
  {
    var none := Outage(None, None, None, None, None, 0);
    if i == 0 then none.(reference := Some(value))
    else if i == 1 then none.(title := Some(value))
    else if i == 2 then none.(severity := Some(value))
    else if i == 3 then none.(status := Some(value))
    else none.(oltReference := Some(value))
  }

  /** A leaking value: text that completes the placeholder it began. */
  lemma Completion(value: string, pat: string) returns (rest: string)
    requires |pat| > 1 && pat[0] == '{' && '{' !in pat[1..] && !Inert(value, pat)
    ensures '{' !in rest && Contains(value + rest, pat)
  {
    var p :| 0 <= p < |value| && Compatible(value[p..], pat);
    if pat <= value[p..] {
      rest := "";
      assert (value + rest)[p..] == value[p..];
    } else {
      rest := pat[|value| - p..];
      forall m | 0 <= m < |rest| ensures rest[m] != '{' { assert rest[m] == pat[1..][|value| - p - 1 + m]; }
      assert (value + rest)[p..] == value[p..] + rest == pat;
    }
  }

  lemma FieldThenLiteral(i: nat, rest: string, values: seq<string>)
    requires |values| == |FIELDS| && i < |FIELDS|
    ensures Text([Field(FIELDS[i]), Literal(rest)]) == Placeholder(FIELDS[i]) + rest
    ensures Substitute([Field(FIELDS[i]), Literal(rest)], values) == values[i] + rest
  {
    var pieces := [Field(FIELDS[i]), Literal(rest)];
    FieldNamesPlain(i);
    assert pieces[1..] == [Literal(rest)] && pieces[1..][1..] == [];
    assert Text([Literal(rest)]) == rest + "" == rest;
    assert FillFirst([Literal(rest)], values, |FIELDS|) == rest + "" == rest;
  }

  /** The chain acts on what a leaking value and the text after it spell together. */
  lemma LeakShortens(i: nat, j: nat, rest: string, v: seq<string>)
    requires |v| == |FIELDS| && i < j < |FIELDS| && '{' !in rest && Contains(v[i] + rest, Placeholder(FIELDS[j]))
    requires forall m | i < m < |FIELDS| :: |v[m]| < |Placeholder(FIELDS[m])|
    ensures Chain(Placeholder(FIELDS[i]) + rest, v, 0) != v[i] + rest
  {
    ChainReaches(i, 0, rest, v);
    ChainShrinks(v[i] + rest, v, i + 1, j);
  }

  lemma OnlyFieldShort(i: nat, value: string)
    requires i < 5 && value != ""
    ensures var v := Values(OnlyField(i, value));
      OthersPlain(v, i) && forall m | 0 <= m < |FIELDS| && m != i :: |v[m]| < |Placeholder(FIELDS[m])|
  {
  }

  lemma LeakBreaksSubstitution(i: nat, value: string) returns (pieces: seq<Piece>, o: Outage)
    requires i < |FIELDS| && Leaks(i, value)
    ensures WellFormed(pieces) && Values(o)[i] == value && OthersPlain(Values(o), i)
    ensures RenderTemplate(Text(pieces), o) != Substitute(pieces, Values(o))
  {
    var j :| 0 <= j < |FIELDS| && i < j && !Inert(value, Placeholder(FIELDS[j]));
    FieldNamesPlain(i);
    FieldNamesPlain(j);
    var pat := Placeholder(FIELDS[j]);
    assert pat[1..] == FIELDS[j] + "}";
    var rest := Completion(value, pat);
    o := OnlyField(i, value);
    OnlyFieldShort(i, value);
    var v := Values(o);
    pieces := [Field(FIELDS[i]), Literal(rest)];
    FieldThenLiteral(i, rest, v);
    RenderIsChain(Text(pieces), o);
    LeakShortens(i, j, rest, v);
  }

  /**
   Main result. A field's value is safe in every well-formed template, with any plain values beside it, if
   and only if it does not leak.
   */
  lemma RenderingExact(i: nat, value: string)
    requires i < |FIELDS|
    ensures AlwaysSubstitutes(i, value) <==> !Leaks(i, value)
  {
    if Leaks(i, value) {
      var pieces, o := LeakBreaksSubstitution(i, value);
      assert !AlwaysSubstitutes(i, value);
    } else {
      forall pieces: seq<Piece>, o: Outage
        | WellFormed(pieces) && Values(o)[i] == value && OthersPlain(Values(o), i)
        ensures RenderTemplate(Text(pieces), o) == Substitute(pieces, Values(o))
      {
        forall k | 0 <= k < |FIELDS| ensures !Leaks(k, Values(o)[k]) {
          if k != i { PlainNeverLeaks(k, Values(o)[k]); }
        }
        RenderIsSubstitution(pieces, o);
      }
    }
  }

  const BRACED_TITLE := Outage(Some("title"), Some("Fibre cut"), None, None, None, 0)

  /** Doubled braces are outside the well-formed templates for a reason: a plain value can complete a placeholder. */
  lemma DoubledBracesBreak()
    ensures RenderTemplate("{" + Placeholder("reference") + "}", BRACED_TITLE) == "Fibre cut"
  {
    var v := Values(BRACED_TITLE);
    var text, p0, p1 := "{" + Placeholder("reference") + "}", Placeholder(FIELDS[0]), Placeholder(FIELDS[1]);
    RenderIsChain(text, BRACED_TITLE);
    assert text[1..] == p0 + "}";
    Clash(text, p0, 1);
    ReplaceHere("}", p0, v[0]);
    ReplaceShort("}", p0, v[0]);
    assert Replace(text, p0, v[0]) == p1;
    ReplaceHere("", p1, v[1]);
    assert p1 + "" == p1 && v[1] + "" == v[1];
    assert Replace(p1, p1, v[1]) == v[1];
    assert Chain(text, v, 0) == Chain(p1, v, 1) == Chain(v[1], v, 2);
    ChainKeepsPlain(v[1], v, 2);
  }

  lemma {:induction false} ChainKeepsPlain(text: string, values: seq<string>, k: nat)
    requires |values| == |FIELDS| && k <= |FIELDS| && '{' !in text
    ensures Chain(text, values, k) == text
    decreases |FIELDS| - k
  {
    if k < |FIELDS| {
      NoFirstCharInert(text, Placeholder(FIELDS[k]));
      CopyInert(text, "", Placeholder(FIELDS[k]), values[k]);
      assert text + "" == text;
      ChainKeepsPlain(text, values, k + 1);
    }
  }

  const TITLE_IN_REFERENCE := Outage(Some("{title}"), Some("Fibre cut"), None, None, None, 0)

  /** A reference that reads `{title}` leaks: the template `{reference}` renders as the title. */
  lemma TitleInReferenceLeaks()
    ensures Leaks(0, "{title}")
    ensures RenderTemplate(Text([Field("reference")]), TITLE_IN_REFERENCE) == "Fibre cut"
    ensures Substitute([Field("reference")], Values(TITLE_IN_REFERENCE)) == "{title}"
  {
    var v := Values(TITLE_IN_REFERENCE);
    var p0, p1 := Placeholder(FIELDS[0]), Placeholder(FIELDS[1]);
    assert "{title}"[0..] == "{title}" == p1;
    assert !Inert("{title}", p1);
    FieldThenNothing(0, v);
    RenderIsChain(p0, TITLE_IN_REFERENCE);
    ReplaceWhole(p0, v[0]);
    ReplaceWhole(p1, v[1]);
    assert Chain(p0, v, 0) == Chain(p1, v, 1) == Chain(v[1], v, 2);
    ChainKeepsPlain(v[1], v, 2);
  }

  lemma ReplaceWhole(pat: string, rep: string)
    requires pat != ""
    ensures Replace(pat, pat, rep) == rep
  {
    ReplaceHere("", pat, rep);
    assert pat + "" == pat && rep + "" == rep;
  }

  lemma FieldThenNothing(i: nat, values: seq<string>)
    requires |values| == |FIELDS| && i < |FIELDS|
    ensures Text([Field(FIELDS[i])]) == Placeholder(FIELDS[i]) && Substitute([Field(FIELDS[i])], values) == values[i]
  {
    var pieces := [Field(FIELDS[i])];
    FieldNamesPlain(i);
    assert pieces[1..] == [];
    assert FillFirst(pieces[1..], values, |FIELDS|) == "" == Text(pieces[1..]);
    assert Filled(pieces[0], values, |FIELDS|) == values[i];
    assert Placeholder(FIELDS[i]) + "" == Placeholder(FIELDS[i]) && values[i] + "" == values[i];
  }

  lemma PlaceholderAlone(i: nat, o: Outage)
    requires i < |FIELDS| && '{' !in Values(o)[i]
    ensures RenderTemplate(Placeholder(FIELDS[i]), o) == Values(o)[i]
  {
    var v := Values(o);
    RenderIsChain(Placeholder(FIELDS[i]), o);
    ChainReaches(i, 0, "", v);
    assert Placeholder(FIELDS[i]) + "" == Placeholder(FIELDS[i]) && v[i] + "" == v[i];
    ChainKeepsPlain(v[i], v, i + 1);
  }

  lemma PrintedIsPlain(n: int)
    ensures '{' !in PrintInt(n)
  {
    assert '{' !in DIGITS;
  }

  /** Each placeholder stands for its own column; an absent or empty one becomes its default. */
  lemma EachPlaceholder(o: Outage)
    ensures o.reference.None? ==> RenderTemplate("{reference}", o) == ""
    ensures o.reference.Some? && '{' !in o.reference.value ==> RenderTemplate("{reference}", o) == o.reference.value
    ensures o.title.None? ==> RenderTemplate("{title}", o) == ""
    ensures o.title.Some? && '{' !in o.title.value ==> RenderTemplate("{title}", o) == o.title.value
    ensures o.severity.None? ==> RenderTemplate("{severity}", o) == ""
    ensures o.severity.Some? && '{' !in o.severity.value ==> RenderTemplate("{severity}", o) == o.severity.value
    ensures o.status.None? ==> RenderTemplate("{status}", o) == ""
    ensures o.status.Some? && '{' !in o.status.value ==> RenderTemplate("{status}", o) == o.status.value
    ensures o.oltReference == None || o.oltReference == Some("") ==> RenderTemplate("{olt}", o) == "N/A"
    ensures o.oltReference.Some? && o.oltReference.value != "" && '{' !in o.oltReference.value ==>
      RenderTemplate("{olt}", o) == o.oltReference.value
    ensures RenderTemplate("{subscribers}", o) == PrintInt(o.affectedSubscribers)
  {
    PlaceholderTexts();
    PrintedIsPlain(o.affectedSubscribers);
    forall i: nat | i < |FIELDS| && '{' !in Values(o)[i] ensures RenderTemplate(Placeholder(FIELDS[i]), o) == Values(o)[i] {
      PlaceholderAlone(i, o);
    }
  }
}
