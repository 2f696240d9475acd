/**
 Migration 0097: every `tenant_isolation` policy gets a uuid cast that an empty setting cannot break.

 The migration patches the policies' *text*. The model follows it there: policies are expressions
 with PostgreSQL's deparsed text and PostgreSQL's three-valued meaning, and the results say what the
 textual patch does to both.
 */
module TenantPolicy {
  import opened Optional
  import opened Sequences
  import opened TextReplace

  // ---- Policy expressions, as pg_get_expr() prints them ----------------------------------

  datatype Expr =
    | Column(name: string)
    | TenantSetting                      // current_setting('app.tenant_id'::text, true)
    | TextLiteral(text: string)
    | NullIf(a: Expr, b: Expr)
    | ToUuid(a: Expr)
    | Equals(a: Expr, b: Expr)
    | IsNull(a: Expr)
    | Not(a: Expr)
    | Or(first: Expr, others: Exprs)
    | And(first: Expr, others: Exprs)

  /** The operands after the first of an n-ary OR or AND: at least one. */
  datatype Exprs = Last(e: Expr) | More(e: Expr, others: Exprs)

  const SETTING_NAME := "current_setting"
  const SETTING_ARGS := "'app.tenant_id'::text, true)"
  const SETTING := SETTING_NAME + ("(" + SETTING_ARGS)
  const BARE_CAST := "(" + (SETTING + ")::uuid")
  const NULLIF_CAST := "(" + (("NULLIF" + ("(" + (SETTING + (", " + ("''::text" + ")"))))) + ")::uuid")

  /** Single quotes are doubled inside an SQL string literal. */
  function Escape(value: string): string
  {
    if value == "" then ""
    else (if value[0] == '\'' then "''" else [value[0]]) + Escape(value[1..])
  }

  function Print(e: Expr): string
  {
    match e
    case Column(name) => name
    case TenantSetting => SETTING
    case TextLiteral(text) => "'" + (Escape(text) + "'::text")
    case NullIf(a, b) => "NULLIF" + ("(" + (Print(a) + (", " + (Print(b) + ")"))))
    case ToUuid(a) => "(" + (Print(a) + ")::uuid")
    case Equals(a, b) => "(" + (Print(a) + (" = " + (Print(b) + ")")))
    case IsNull(a) => "(" + (Print(a) + " IS NULL)")
    case Not(a) => "(" + ("NOT " + (Print(a) + ")"))
    case Or(first, others) => "(" + (Print(first) + PrintAll(others, " OR "))
    case And(first, others) => "(" + (Print(first) + PrintAll(others, " AND "))
  }

  function PrintAll(es: Exprs, op: string): string
  {
    match es
    case Last(e) => op + (Print(e) + ")")
    case More(e, others) => op + (Print(e) + PrintAll(others, op))
  }

  /** Column names hold no parenthesis. */
  predicate PlainNames(e: Expr)
  {
    match e
    case Column(name) => '(' !in name
    case TenantSetting => true
    case TextLiteral(text) => true
    case NullIf(a, b) => PlainNames(a) && PlainNames(b)
    case ToUuid(a) => PlainNames(a)
    case Equals(a, b) => PlainNames(a) && PlainNames(b)
    case IsNull(a) => PlainNames(a)
    case Not(a) => PlainNames(a)
    case Or(first, others) => PlainNames(first) && AllPlainNames(others)
    case And(first, others) => PlainNames(first) && AllPlainNames(others)
  }

  predicate AllPlainNames(es: Exprs)
  {
    PlainNames(es.e) && (es.More? ==> AllPlainNames(es.others))
  }

  function Size(e: Expr): (n: nat)
    ensures n > 0
  {
    match e
    case Column(_) => 1
    case TenantSetting => 1
    case TextLiteral(_) => 1
    case NullIf(a, b) => 1 + Size(a) + Size(b)
    case ToUuid(a) => 1 + Size(a)
    case Equals(a, b) => 1 + Size(a) + Size(b)
    case IsNull(a) => 1 + Size(a)
    case Not(a) => 1 + Size(a)
    case Or(first, others) => 1 + Size(first) + SizeAll(others)
    case And(first, others) => 1 + Size(first) + SizeAll(others)
  }

  function SizeAll(es: Exprs): (n: nat)
    ensures n > 0
  {
    Size(es.e) + if es.More? then SizeAll(es.others) else 0
  }

  /** The intended change: a bare cast of the setting becomes a NULL-safe one, everywhere, and nothing else moves. */
  function Rewrite(e: Expr): Expr
  {
    match e
    case Column(_) => e
    case TenantSetting => e
    case TextLiteral(_) => e
    case NullIf(a, b) => NullIf(Rewrite(a), Rewrite(b))
    case ToUuid(a) => if a == TenantSetting then ToUuid(NullIf(TenantSetting, TextLiteral(""))) else ToUuid(Rewrite(a))
    case Equals(a, b) => Equals(Rewrite(a), Rewrite(b))
    case IsNull(a) => IsNull(Rewrite(a))
    case Not(a) => Not(Rewrite(a))
    case Or(first, others) => Or(Rewrite(first), RewriteAll(others))
    case And(first, others) => And(Rewrite(first), RewriteAll(others))
  }

  function RewriteAll(es: Exprs): Exprs
  {
    match es
    case Last(e) => Last(Rewrite(e))
    case More(e, others) => More(Rewrite(e), RewriteAll(others))
  }

  /** What the migration does to a policy's text. */
  function Patch(text: string): string
  {
    Replace(text, BARE_CAST, NULLIF_CAST)
  }

  // ---- The textual patch is the intended change ------------------------------------------

  /** What can follow a printed operand. */
  predicate Follows(k: string)
  {
    k == "" || k[0] in {' ', ',', ')'}
  }

  lemma PatchChunk(chunk: string, rest: string)
    requires '(' !in chunk
    ensures Patch(chunk + rest) == chunk + Patch(rest)
  {
    NoFirstCharInert(chunk, BARE_CAST);
    CopyInert(chunk, rest, BARE_CAST, NULLIF_CAST);
  }

  lemma PrefixTail(c: char, a: string, b: string)
    ensures [c] + a <= [c] + b <==> a <= b
  {
    if [c] + a <= [c] + b { assert ([c] + a)[1..] == a && ([c] + b)[1..] == b; }
  }

  /** An opening parenthesis that does not start a bare cast is copied. */
  lemma PatchParen(rest: string)
    requires !(SETTING + ")::uuid" <= rest)
    ensures Patch("(" + rest) == "(" + Patch(rest)
  {
    assert ("(" + rest)[0..] == "(" + rest;
    PrefixTail('(', SETTING + ")::uuid", rest);
    CopyThrough("(", rest, BARE_CAST, NULLIF_CAST);
  }

  lemma SettingChars()
    ensures |SETTING_NAME| == 15 && '(' !in SETTING_NAME && '(' !in SETTING_ARGS
    ensures forall c | c in SETTING_NAME :: c !in {' ', ',', ')', '\''}
    ensures SETTING_NAME[0] == 'c' && |SETTING_ARGS| > 2 && SETTING_ARGS[0] == '\'' && SETTING_ARGS[1] == 'a'
  {
  }

  /** Only the setting itself, directly followed by a closing parenthesis, looks like the inside of a bare cast. */
  lemma OperandClash(e: Expr, k: string)
    requires PlainNames(e) && k != "" && Follows(k) && (e == TenantSetting ==> k[0] != ')')
    ensures !(SETTING + ")::uuid" <= Print(e) + k)
  {
    var want, have := SETTING + ")::uuid", Print(e) + k;
    SettingChars();
    match e {
      case Column(name) =>
        var i := if |name| > 15 then 15 else |name|;
        assert have[i] == if i < |name| then name[i] else k[0];
        assert want[i] == if i == 15 then '(' else SETTING_NAME[i];
        assert have[i] != want[i];
      case TenantSetting =>
        assert have[|SETTING|] == k[0] && want[|SETTING|] == ')';
      case _ =>
        assert have[0] in {'\'', 'N', '('};
        assert want[0] == SETTING_NAME[0];
    }
  }

  lemma OpenOperand(e: Expr, k: string)
    requires PlainNames(e) && k != "" && Follows(k) && (e == TenantSetting ==> k[0] != ')')
    ensures Patch("(" + (Print(e) + k)) == "(" + Patch(Print(e) + k)
  {
    OperandClash(e, k);
    PatchParen(Print(e) + k);
  }

  /** Inside a quoted literal every quote is doubled: a lone quote followed by neither `'` nor `:` cannot occur. */
  lemma {:induction false} LiteralClash(head: string, tail: string, t: string, k: string)
    requires '\'' !in head && tail != "" && tail[0] !in {'\'', ':'}
    ensures !(head + ("'" + tail) <= Escape(t) + ("'::text" + k))
    decreases |t|
  {
    var want, have := head + ("'" + tail), Escape(t) + ("'::text" + k);
    if t == "" || t[0] == '\'' {
      assert have[0] == '\'' && have[1] in {'\'', ':'};
      assert want[0] == (if head == "" then '\'' else head[0]) && (head == "" ==> want[1] == tail[0]);
    } else if head == "" {
      assert want[0] == '\'' && have[0] == t[0];
    } else if head[0] != t[0] {
      assert want[0] == head[0] && have[0] == t[0];
    } else {
      LiteralClash(head[1..], tail, t[1..], k);
      PrefixTail(t[0], head[1..] + ("'" + tail), Escape(t[1..]) + ("'::text" + k));
      assert want == [t[0]] + (head[1..] + ("'" + tail));
      assert have == [t[0]] + (Escape(t[1..]) + ("'::text" + k));
    }
  }

  lemma LiteralHoldsNoCast(t: string, k: string)
    ensures !(BARE_CAST <= Escape(t) + ("'::text" + k))
  {
    SettingChars();
    var head, tail := "(" + (SETTING_NAME + "("), SETTING_ARGS[1..] + ")::uuid";
    LiteralClash(head, tail, t, k);
    assert head + ("'" + tail) == BARE_CAST by {
      assert SETTING_ARGS + ")::uuid" == "'" + tail;
      Assoc("(" , SETTING_NAME + "(", "'" + tail);
      Assoc(SETTING_NAME, "(", "'" + tail);
      Assoc(SETTING_NAME, "(" + SETTING_ARGS, ")::uuid");
      Assoc("(", SETTING_ARGS, ")::uuid");
    }
  }

  lemma {:induction false} PatchLiteral(t: string, k: string)
    ensures Patch(Escape(t) + ("'::text" + k)) == Escape(t) + ("'::text" + Patch(k))
  {
    if t == "" {
      PatchChunk("'::text", k);
      assert "" + ("'::text" + k) == "'::text" + k && "" + ("'::text" + Patch(k)) == "'::text" + Patch(k);
    } else {
      var head := if t[0] == '\'' then "''" else [t[0]];
      var rest := Escape(t[1..]) + ("'::text" + k);
      PatchLiteral(t[1..], k);
      Assoc(head, Escape(t[1..]), "'::text" + k);
      Assoc(head, Escape(t[1..]), "'::text" + Patch(k));
      if t[0] == '(' {
        LiteralHoldsNoCast(t, k);
        assert (head + rest)[0..] == head + rest;
        CopyThrough(head, rest, BARE_CAST, NULLIF_CAST);
      } else {
        PatchChunk(head, rest);
      }
    }
  }

  lemma PatchSetting(k: string)
    ensures Patch(SETTING + k) == SETTING + Patch(k)
  {
    SettingChars();
    var rest := SETTING_ARGS + k;
    Assoc(SETTING_NAME, "(" + SETTING_ARGS, k);
    Assoc("(", SETTING_ARGS, k);
    Assoc(SETTING_NAME, "(" + SETTING_ARGS, Patch(k));
    Assoc("(", SETTING_ARGS, Patch(k));
    PatchChunk(SETTING_NAME, "(" + rest);
    assert rest[0] == '\'' && (SETTING + ")::uuid")[0] == SETTING_NAME[0];
    PatchParen(rest);
    PatchChunk(SETTING_ARGS, k);
  }

  /** The migration's `replace` on the printed policy is the printed rewrite, character for character. */
  lemma {:induction false} PatchIsRewrite(e: Expr, k: string)
    requires PlainNames(e) && Follows(k)
    ensures Patch(Print(e) + k) == Print(Rewrite(e)) + Patch(k)
    decreases Size(e), 0
  {
    match e {
      case Column(name) => PatchChunk(name, k);
      case TenantSetting => PatchSetting(k);
      case TextLiteral(text) => PatchText(text, k);
      case NullIf(a, b) => PatchNullIf(a, b, k);
      case ToUuid(a) => PatchCast(a, k);
      case Equals(a, b) => PatchTwo(a, " = ", b, k);
        Assoc("(", Print(a) + (" = " + (Print(b) + ")")), k);
        Assoc("(", Print(Rewrite(a)) + (" = " + (Print(Rewrite(b)) + ")")), Patch(k));
      case IsNull(a) => PatchOne(a, " IS NULL)", k);
        OpenOperand(a, " IS NULL)" + k);
        Assoc("(", Print(a) + " IS NULL)", k);
        Assoc("(", Print(Rewrite(a)) + " IS NULL)", Patch(k));
      case Not(a) => PatchNot(a, k);
      case Or(first, others) => PatchOperands(first, others, " OR ", k);
      case And(first, others) => PatchOperands(first, others, " AND ", k);
    }
  }

  lemma PatchText(text: string, k: string)
    ensures Patch(Print(TextLiteral(text)) + k) == Print(TextLiteral(text)) + Patch(k)
  {
    PatchLiteral(text, k);
    PatchChunk("'", Escape(text) + ("'::text" + k));
    Assoc("'", Escape(text) + "'::text", k);
    Assoc(Escape(text), "'::text", k);
    Assoc("'", Escape(text) + "'::text", Patch(k));
    Assoc(Escape(text), "'::text", Patch(k));
  }

  /** An operand and the text that closes it. */
  lemma {:induction false} PatchOne(a: Expr, end: string, k: string)
    requires PlainNames(a) && end != "" && Follows(end) && '(' !in end
    ensures Patch((Print(a) + end) + k) == (Print(Rewrite(a)) + end) + Patch(k)
    ensures (Print(a) + end) + k == Print(a) + (end + k)
    decreases Size(a), 1
  {
    PatchIsRewrite(a, end + k);
    PatchChunk(end, k);
    Assoc(Print(a), end, k);
    Assoc(Print(Rewrite(a)), end, Patch(k));
  }

  lemma {:induction false} PatchNot(a: Expr, k: string)
    requires PlainNames(a)
    ensures Patch(Print(Not(a)) + k) == Print(Rewrite(Not(a))) + Patch(k)
    decreases Size(a), 2
  {
    var inner := Print(a) + ")";
    PatchOne(a, ")", k);
    PatchChunk("NOT ", inner + k);
    SettingChars();
    assert ("NOT " + (inner + k))[0] == 'N' && (SETTING + ")::uuid")[0] == SETTING_NAME[0];
    PatchParen("NOT " + (inner + k));
    Assoc("(", "NOT " + inner, k);
    Assoc("NOT ", inner, k);
    Assoc("(", "NOT " + (Print(Rewrite(a)) + ")"), Patch(k));
    Assoc("NOT ", Print(Rewrite(a)) + ")", Patch(k));
  }

  lemma {:induction false} PatchTwo(a: Expr, mid: string, b: Expr, k: string)
    requires PlainNames(a) && PlainNames(b) && mid in {", ", " = "}
    ensures Patch("(" + ((Print(a) + (mid + (Print(b) + ")"))) + k))
         == "(" + ((Print(Rewrite(a)) + (mid + (Print(Rewrite(b)) + ")"))) + Patch(k))
    decreases Size(a) + Size(b), 0
  {
    var end := Print(b) + ")";
    PatchOne(b, ")", k);
    PatchChunk(mid, end + k);
    PatchIsRewrite(a, mid + (end + k));
    OpenOperand(a, mid + (end + k));
    Assoc(Print(a), mid + end, k);
    Assoc(mid, end, k);
    Assoc(Print(Rewrite(a)), mid + (Print(Rewrite(b)) + ")"), Patch(k));
    Assoc(mid, Print(Rewrite(b)) + ")", Patch(k));
  }

  lemma {:induction false} PatchNullIf(a: Expr, b: Expr, k: string)
    requires PlainNames(a) && PlainNames(b)
    ensures Patch(Print(NullIf(a, b)) + k) == Print(Rewrite(NullIf(a, b))) + Patch(k)
    decreases Size(a) + Size(b), 1
  {
    var inner, after := Print(a) + (", " + (Print(b) + ")")), Print(Rewrite(a)) + (", " + (Print(Rewrite(b)) + ")"));
    PatchTwo(a, ", ", b, k);
    PatchChunk("NULLIF", "(" + (inner + k));
    Assoc("NULLIF", "(" + inner, k);
    Assoc("(", inner, k);
    Assoc("NULLIF", "(" + after, Patch(k));
    Assoc("(", after, Patch(k));
  }

  lemma {:induction false} PatchCast(a: Expr, k: string)
    requires PlainNames(a)
    ensures Patch(Print(ToUuid(a)) + k) == Print(Rewrite(ToUuid(a))) + Patch(k)
    decreases Size(a), 2
  {
    if a == TenantSetting {
      ReplaceHere(k, BARE_CAST, NULLIF_CAST);
      EscapeEmpty();
    } else {
      PatchOne(a, ")::uuid", k);
      OpenOperand(a, ")::uuid" + k);
      Assoc("(", Print(a) + ")::uuid", k);
      Assoc("(", Print(Rewrite(a)) + ")::uuid", Patch(k));
    }
  }

  lemma EscapeEmpty()
    ensures Print(TextLiteral("")) == "''::text"
    ensures Print(ToUuid(NullIf(TenantSetting, TextLiteral("")))) == NULLIF_CAST
  {
    assert Print(TextLiteral("")) == "''::text";
  }

  lemma {:induction false} PatchOperands(first: Expr, others: Exprs, op: string, k: string)
    requires PlainNames(first) && AllPlainNames(others) && Follows(k) && op in {" OR ", " AND "}
    ensures Patch(("(" + (Print(first) + PrintAll(others, op))) + k)
         == ("(" + (Print(Rewrite(first)) + PrintAll(RewriteAll(others), op))) + Patch(k)
    decreases Size(first) + SizeAll(others), 0
  {
    var rest := PrintAll(others, op) + k;
    assert rest[0] == ' ';
    PatchIsRewrite(first, rest);
    PatchAll(others, op, k);
    OpenOperand(first, rest);
    Assoc("(", Print(first) + PrintAll(others, op), k);
    Assoc(Print(first), PrintAll(others, op), k);
    Assoc("(", Print(Rewrite(first)) + PrintAll(RewriteAll(others), op), Patch(k));
    Assoc(Print(Rewrite(first)), PrintAll(RewriteAll(others), op), Patch(k));
  }

  lemma {:induction false} PatchAll(es: Exprs, op: string, k: string)
    requires AllPlainNames(es) && Follows(k) && op in {" OR ", " AND "}
    ensures Patch(PrintAll(es, op) + k) == PrintAll(RewriteAll(es), op) + Patch(k)
    decreases SizeAll(es), 2
  {
    match es {
      case Last(e) =>
        PatchOne(e, ")", k);
        PatchChunk(op, (Print(e) + ")") + k);
        Assoc(op, Print(e) + ")", k);
        Assoc(op, Print(Rewrite(e)) + ")", Patch(k));
      case More(e, others) =>
        var rest := PrintAll(others, op) + k;
        assert rest[0] == ' ';
        PatchIsRewrite(e, rest);
        PatchAll(others, op, k);
        PatchChunk(op, Print(e) + rest);
        Assoc(op, Print(e) + PrintAll(others, op), k);
        Assoc(Print(e), PrintAll(others, op), k);
        Assoc(op, Print(Rewrite(e)) + PrintAll(RewriteAll(others), op), Patch(k));
        Assoc(Print(Rewrite(e)), PrintAll(RewriteAll(others), op), Patch(k));
    }
  }

  /** Main result on the text: patching a whole printed policy prints the rewritten policy. */
  lemma PatchPolicyText(e: Expr)
    requires PlainNames(e)
    ensures Patch(Print(e)) == Print(Rewrite(e))
  {
    PatchIsRewrite(e, "");
    assert Print(e) + "" == Print(e) && Print(Rewrite(e)) + "" == Print(Rewrite(e));
  }

  // ---- What a policy means ----------------------------------------------------------------

  type Uuid(==, !new)

  datatype Value = Null | Text(text: string) | Id(uuid: Uuid) | Truth(b: bool)

  datatype Outcome = Ok(value: Value) | Error

  /** One row under one session: the column values, the app.tenant_id setting, and PostgreSQL's uuid parser. */
  datatype Env = Env(row: map<string, Value>, setting: Setting, parseUuid: string -> Parsed)

  datatype Setting = Unset | Set(value: string)

  datatype Parsed = Invalid | Valid(uuid: Uuid)

  function Eval(e: Expr, env: Env): Outcome
    decreases Size(e), 1
  {
    match e
    case Column(name) => if name in env.row then Ok(env.row[name]) else Error
    case TenantSetting => Ok(if env.setting.Unset? then Null else Text(env.setting.value))
    case TextLiteral(text) => Ok(Text(text))
    case NullIf(a, b) =>
      var (x, y) := (Eval(a, env), Eval(b, env));
      if x.Error? || y.Error? then Error
      else if x.value.Null? || y.value.Null? then x
      else if !SameType(x.value, y.value) then Error
      else if x.value == y.value then Ok(Null) else x
    case ToUuid(a) =>
      var x := Eval(a, env);
      if x.Error? then Error else CastToUuid(x.value, env)
    case Equals(a, b) =>
      var (x, y) := (Eval(a, env), Eval(b, env));
      if x.Error? || y.Error? then Error
      else if x.value.Null? || y.value.Null? then Ok(Null)
      else if !SameType(x.value, y.value) then Error
      else Ok(Truth(x.value == y.value))
    case IsNull(a) =>
      var x := Eval(a, env);
      if x.Error? then Error else Ok(Truth(x.value.Null?))
    case Not(a) =>
      var x := Eval(a, env);
      if x.Error? then Error
      else if x.value.Null? then x
      else if x.value.Truth? then Ok(Truth(!x.value.b)) else Error
    case Or(first, others) => EvalAll(first, others, env, true)
    case And(first, others) => EvalAll(first, others, env, false)
  }

  predicate SameType(x: Value, y: Value)
  {
    (x.Text? && y.Text?) || (x.Id? && y.Id?) || (x.Truth? && y.Truth?)
  }

  function CastToUuid(v: Value, env: Env): Outcome
  {
    match v
    case Null => Ok(Null)
    case Id(_) => Ok(v)
    case Text(text) => (match env.parseUuid(text) case Valid(u) => Ok(Id(u)) case Invalid => Error)
    case Truth(_) => Error
  }

  /** OR (`stop` = true) and AND (`stop` = false), left to right: the first operand equal to `stop` decides,
      an error met before that raises, otherwise a NULL operand makes the result NULL. */
  function EvalAll(first: Expr, others: Exprs, env: Env, stop: bool): Outcome
    decreases Size(first) + SizeAll(others), 0
  {
    var x := Eval(first, env);
    if x.Error? || x.value.Text? || x.value.Id? then Error
    else if x.value == Truth(stop) then x
    else
      var y := match others
        case Last(e) => BooleanOnly(Eval(e, env))
        case More(e, more) => EvalAll(e, more, env, stop);
      if y.Error? || y.value == Truth(stop) then y
      else if x.value.Null? then x else y
  }

  function BooleanOnly(x: Outcome): Outcome
  {
    if x.Ok? && (x.value.Text? || x.value.Id?) then Error else x
  }

  lemma ConnectiveTable(a: Expr, b: Expr, env: Env, stop: bool, x: Value, y: Value)
    requires Eval(a, env) == Ok(x) && Eval(b, env) == Ok(y) && (x.Null? || x.Truth?) && (y.Null? || y.Truth?)
    ensures EvalAll(a, Last(b), env, stop) == Ok(
      if x == Truth(stop) || y == Truth(stop) then Truth(stop) else if x.Null? || y.Null? then Null else Truth(!stop))
  {
    assert BooleanOnly(Ok(y)) == Ok(y);
  }

  /** The truth tables of AND, OR and NOT on operands that raise nothing, NULL standing for unknown. */
  lemma TruthTables(a: Expr, b: Expr, env: Env, x: Value, y: Value)
    requires Eval(a, env) == Ok(x) && Eval(b, env) == Ok(y) && (x.Null? || x.Truth?) && (y.Null? || y.Truth?)
    ensures Eval(And(a, Last(b)), env) == Ok(
      if x == Truth(false) || y == Truth(false) then Truth(false) else if x.Null? || y.Null? then Null else Truth(true))
    ensures Eval(Or(a, Last(b)), env) == Ok(
      if x == Truth(true) || y == Truth(true) then Truth(true) else if x.Null? || y.Null? then Null else Truth(false))
    ensures Eval(Not(a), env) == Ok(if x.Null? then Null else Truth(x == Truth(false)))
  {
    ConnectiveTable(a, b, env, false, x, y);
    ConnectiveTable(a, b, env, true, x, y);
  }

  /** An empty string is not a uuid: PostgreSQL rejects it. */
  predicate RejectsEmpty(env: Env)
  {
    env.parseUuid("").Invalid?
  }

  lemma NullSafeCast(env: Env)
    ensures Eval(Rewrite(ToUuid(TenantSetting)), env) ==
      if env.setting == Set("") then Ok(Null) else Eval(ToUuid(TenantSetting), env)
  {
  }

  /** With any setting but the empty string, the two casts agree everywhere, errors included. */
  lemma {:induction false} SameUnlessEmpty(e: Expr, env: Env)
    requires env.setting != Set("")
    ensures Eval(Rewrite(e), env) == Eval(e, env)
    decreases Size(e), 1
  {
    match e {
      case Column(_) =>
      case TenantSetting =>
      case TextLiteral(_) =>
      case NullIf(a, b) => SameUnlessEmpty(a, env); SameUnlessEmpty(b, env);
      case ToUuid(a) => if a == TenantSetting { NullSafeCast(env); } else { SameUnlessEmpty(a, env); }
      case Equals(a, b) => SameUnlessEmpty(a, env); SameUnlessEmpty(b, env);
      case IsNull(a) => SameUnlessEmpty(a, env);
      case Not(a) => SameUnlessEmpty(a, env);
      case Or(first, others) => SameUnlessEmptyAll(first, others, env, true);
      case And(first, others) => SameUnlessEmptyAll(first, others, env, false);
    }
  }

  lemma {:induction false} SameUnlessEmptyAll(first: Expr, others: Exprs, env: Env, stop: bool)
    requires env.setting != Set("")
    ensures EvalAll(Rewrite(first), RewriteAll(others), env, stop) == EvalAll(first, others, env, stop)
    decreases Size(first) + SizeAll(others), 0
  {
    SameUnlessEmpty(first, env);
    match others {
      case Last(e) => SameUnlessEmpty(e, env);
      case More(e, more) => SameUnlessEmptyAll(e, more, env, stop);
    }
  }

  /** Main result on the meaning: wherever the old policy gave a value, the new one gives the same value. */
  lemma {:induction false} MeaningPreserved(e: Expr, env: Env)
    requires RejectsEmpty(env) && Eval(e, env).Ok?
    ensures Eval(Rewrite(e), env) == Eval(e, env)
    decreases Size(e), 1
  {
    match e {
      case Column(_) =>
      case TenantSetting =>
      case TextLiteral(_) =>
      case NullIf(a, b) => MeaningPreserved(a, env); MeaningPreserved(b, env);
      case ToUuid(a) => if a == TenantSetting { NullSafeCast(env); } else { MeaningPreserved(a, env); }
      case Equals(a, b) => MeaningPreserved(a, env); MeaningPreserved(b, env);
      case IsNull(a) => MeaningPreserved(a, env);
      case Not(a) => MeaningPreserved(a, env);
      case Or(first, others) => MeaningPreservedAll(first, others, env, true);
      case And(first, others) => MeaningPreservedAll(first, others, env, false);
    }
  }

  lemma {:induction false} MeaningPreservedAll(first: Expr, others: Exprs, env: Env, stop: bool)
    requires RejectsEmpty(env) && EvalAll(first, others, env, stop).Ok?
    ensures EvalAll(Rewrite(first), RewriteAll(others), env, stop) == EvalAll(first, others, env, stop)
    decreases Size(first) + SizeAll(others), 0
  {
    MeaningPreserved(first, env);
    if Eval(first, env).value != Truth(stop) {
      match others {
        case Last(e) => MeaningPreserved(e, env);
        case More(e, more) => MeaningPreservedAll(e, more, env, stop);
      }
    }
  }

  const STANDARD_POLICY :=
    Or(Equals(Column("tenant_id"), ToUuid(TenantSetting)),
       More(IsNull(TenantSetting), Last(Equals(TenantSetting, TextLiteral("")))))

  /** The fail-open branch: true unless a non-empty setting is present. */
  lemma GuardsValue(env: Env)
    ensures EvalAll(IsNull(TenantSetting), Last(Equals(TenantSetting, TextLiteral(""))), env, true) ==
      Ok(Truth(env.setting.Unset? || env.setting.value == ""))
  {
  }

  /** Only the cast is rewritten. */
  lemma StandardRewritten()
    ensures Rewrite(STANDARD_POLICY) ==
      Or(Equals(Column("tenant_id"), Rewrite(ToUuid(TenantSetting))),
         More(IsNull(TenantSetting), Last(Equals(TenantSetting, TextLiteral("")))))
  {
  }

  /**
   The standard policy, before and after. Only an empty setting changes anything: it used to raise before its
   own fail-open branch could be reached, and now passes every row.
   */
  predicate StandardDecision(env: Env)
    requires "tenant_id" in env.row
  {
    var before, after := Eval(STANDARD_POLICY, env), Eval(Rewrite(STANDARD_POLICY), env);
    match env.setting
    case Unset => before == after == Ok(Truth(true))
    case Set(s) =>
      if s == "" then before == Error && after == Ok(Truth(true))
      else match env.parseUuid(s)
        case Invalid => before == after == Error
        case Valid(u) => before == after == Ok(Truth(env.row["tenant_id"] == Id(u)))
  }

  lemma StandardPolicyDecision(env: Env)
    requires RejectsEmpty(env) && "tenant_id" in env.row && env.row["tenant_id"].Id?
    ensures StandardDecision(env)
  {
    var own := ToUuid(TenantSetting);
    NullSafeCast(env);
    GuardsValue(env);
    StandardRewritten();
    assert Eval(Column("tenant_id"), env) == Ok(env.row["tenant_id"]);
    assert Eval(own, env) == if env.setting.Unset? then Ok(Null) else CastToUuid(Text(env.setting.value), env);
  }

  // ---- The catalogue loop -----------------------------------------------------------------

  /** A policy's FOR command, TO roles, and whether it is permissive. */
  datatype Scope = Scope(command: string, roles: set<string>, permissive: bool)

  /** What CREATE POLICY gives when it names none of them. */
  const DEFAULT_SCOPE := Scope("ALL", {"public"}, true)

  /** A tenant_isolation policy as the catalogue stores it; `None` is an absent clause. */
  datatype Policy = Policy(qual: Maybe<string>, withCheck: Maybe<string>, scope: Scope)

  /** The loop's WHERE: mentions the setting, and NULLIF nowhere. */
  predicate Selected(p: Policy)
  {
    p.qual.Some? && Like(p.qual.value, "current_setting") && !Like(p.qual.value, "NULLIF")
  }

  function PatchedPolicy(p: Policy): Policy
  {
    if !Selected(p) then p
    else Policy(Some(Patch(p.qual.value)), if p.withCheck.None? then None else Some(Patch(p.withCheck.value)), DEFAULT_SCOPE)
  }

  function PatchedAll(policies: map<string, Policy>): (r: map<string, Policy>)
  {
    map t | t in policies :: PatchedPolicy(policies[t])
  }

  class Catalogue {
    /** Table name to its tenant_isolation policy. */
    var policies: map<string, Policy>

    constructor (policies: map<string, Policy>)
      ensures this.policies == policies
    {
      this.policies := policies;
    }

    /** DROP POLICY and CREATE POLICY for each selected table, over the rows selected when the loop began. */
    method Upgrade() returns (patched: nat)
      modifies this
      ensures policies == PatchedAll(old(policies))
      ensures patched == |set t | t in old(policies) && Selected(old(policies)[t])|
    {
      var before := policies;
      var rows := set t | t in before && Selected(before[t]);
      var todo := rows;
      patched := 0;
      while todo != {}
        invariant todo <= rows
        invariant patched + |todo| == |rows|
        invariant policies.Keys == before.Keys
        invariant forall t | t in before :: policies[t] == if t in todo then before[t] else PatchedPolicy(before[t])
      {
        var t :| t in todo;
        var r := before[t];
        var text := Patch(r.qual.value);
        policies := policies - {t};
        if r.withCheck.None? {
          policies := policies[t := Policy(Some(text), None, DEFAULT_SCOPE)];
        } else {
          policies := policies[t := Policy(Some(text), Some(Patch(r.withCheck.value)), DEFAULT_SCOPE)];
        }
        patched := patched + 1;
        todo := todo - {t};
      }
    }
  }

  /**
   What the upgrade does to a policy: if its USING mentions the setting and NULLIF nowhere, the bare cast is replaced in
   both clauses present and the policy is created anew for all commands and roles; otherwise it stays.
   */
  lemma UpgradeExact(policies: map<string, Policy>, t: string)
    requires t in policies
    ensures PatchedAll(policies).Keys == policies.Keys
    ensures
      var p, q := policies[t], PatchedAll(policies)[t];
      var setting := "current_setting" + ("(" + "'app.tenant_id'::text, true)");
      var bare := "(" + (setting + ")::uuid");
      var safe := "(" + (("NULLIF" + ("(" + (setting + (", " + ("''::text" + ")"))))) + ")::uuid");
      if p.qual.Some? && Like(p.qual.value, "current_setting") && !Contains(p.qual.value, "NULLIF") then
        && q.qual == Some(Replace(p.qual.value, bare, safe))
        && q.withCheck == (if p.withCheck.None? then None else Some(Replace(p.withCheck.value, bare, safe)))
        && q.scope.command == "ALL" && q.scope.roles == {"public"} && q.scope.permissive
      else q == p
  {
    if policies[t].qual.Some? { LikeContains(policies[t].qual.value, "NULLIF"); }
  }

  lemma PatchTextIdempotent(text: string)
    ensures Patch(Patch(text)) == Patch(text)
  {
    CastsDoNotOverlap();
    ReplaceIdempotent(text, BARE_CAST, NULLIF_CAST);
  }

  /** Neither cast can be mistaken for part of the other. */
  lemma CastsDoNotOverlap()
    ensures Inert(NULLIF_CAST, BARE_CAST) && NoOverlapInto(BARE_CAST, NULLIF_CAST)
  {
    SettingChars();
    var bareTail := SETTING_ARGS + ")::uuid";
    var safeEnd := (", " + ("''::text" + ")")) + ")::uuid";
    var safeTail := SETTING_ARGS + safeEnd;
    assert forall c | c in safeEnd :: c != '(';
    // The bare cast, past its first character
    NoFirstCharInert(bareTail, NULLIF_CAST);
    Clash("(" + bareTail, NULLIF_CAST, 1);
    InertCons('(', bareTail, NULLIF_CAST);
    NoFirstCharInert(SETTING_NAME, NULLIF_CAST);
    InertConcat(SETTING_NAME, "(" + bareTail, NULLIF_CAST);
    var inner := SETTING_NAME + ("(" + bareTail);
    Assoc(SETTING_NAME, "(" + SETTING_ARGS, ")::uuid");
    Assoc("(", SETTING_ARGS, ")::uuid");
    assert BARE_CAST == "(" + inner;
    forall i | 1 <= i < |BARE_CAST| ensures !Compatible(BARE_CAST[i..], NULLIF_CAST) {
      assert BARE_CAST[i..] == inner[i - 1..];
    }
    // The NULL-safe cast
    NoFirstCharInert(safeTail, BARE_CAST);
    Clash("(" + safeTail, BARE_CAST, 1);
    InertCons('(', safeTail, BARE_CAST);
    NoFirstCharInert(SETTING_NAME, BARE_CAST);
    InertConcat(SETTING_NAME, "(" + safeTail, BARE_CAST);
    var safeInner := SETTING_NAME + ("(" + safeTail);
    SafeCastShape();
    Clash("(" + safeInner, BARE_CAST, 1 + |SETTING|);
    InertCons('(', safeInner, BARE_CAST);
    NoFirstCharInert("NULLIF", BARE_CAST);
    InertConcat("NULLIF", "(" + safeInner, BARE_CAST);
    Clash(NULLIF_CAST, BARE_CAST, 1);
    InertCons('(', "NULLIF" + ("(" + safeInner), BARE_CAST);
  }

  lemma SafeCastShape()
    ensures
      var safeTail := SETTING_ARGS + ((", " + ("''::text" + ")")) + ")::uuid");
      var safeInner := SETTING_NAME + ("(" + safeTail);
      NULLIF_CAST == "(" + ("NULLIF" + ("(" + safeInner)) && |safeInner| > |SETTING| && safeInner[|SETTING|] == ','
  {
  }

  /**
   A second run changes nothing, whatever the policies say: a patched policy now mentions NULLIF or had no
   bare cast to begin with. Tables keep exactly their policies, and an absent WITH CHECK stays absent.
   */
  lemma UpgradeTwice(policies: map<string, Policy>)
    ensures PatchedAll(PatchedAll(policies)) == PatchedAll(policies)
    ensures PatchedAll(policies).Keys == policies.Keys
    ensures forall t | t in policies :: PatchedAll(policies)[t].withCheck.None? <==> policies[t].withCheck.None?
  {
    var once := PatchedAll(policies);
    forall t | t in policies ensures PatchedPolicy(once[t]) == once[t] {
      var p := policies[t];
      if Selected(p) {
        PatchTextIdempotent(p.qual.value);
        if p.withCheck.Some? { PatchTextIdempotent(p.withCheck.value); }
      }
    }
  }

  /** The rewritten expression gives every value the old one gave; only an error on an empty setting can go away. */
  ghost predicate DecisionsKept(e: Expr, env: Env)
  {
    && (Eval(e, env).Ok? ==> Eval(Rewrite(e), env) == Eval(e, env))
    && (Eval(Rewrite(e), env) != Eval(e, env) ==> env.setting == Set("") && Eval(e, env).Error?)
  }

  lemma KeepsDecisions(e: Expr, env: Env)
    requires RejectsEmpty(env)
    ensures DecisionsKept(e, env)
  {
    if env.setting != Set("") { SameUnlessEmpty(e, env); }
    if Eval(e, env).Ok? { MeaningPreserved(e, env); }
  }

  /** A selected policy decides every row it used to decide, exactly as before, on reading and on writing. */
  lemma UpgradeKeepsDecisions(policies: map<string, Policy>, t: string, e: Expr, check: Maybe<Expr>, env: Env)
    requires t in policies && policies[t].qual == Some(Print(e)) && PlainNames(e) && Selected(policies[t])
    requires policies[t].withCheck == if check.None? then None else Some(Print(check.value))
    requires check.Some? ==> PlainNames(check.value)
    requires RejectsEmpty(env)
    ensures PatchedAll(policies)[t].qual == Some(Print(Rewrite(e))) && DecisionsKept(e, env)
    ensures PatchedAll(policies)[t].withCheck == if check.None? then None else Some(Print(Rewrite(check.value)))
    ensures check.Some? ==> DecisionsKept(check.value, env)
  {
    PatchPolicyText(e);
    KeepsDecisions(e, env);
    if check.Some? {
      PatchPolicyText(check.value);
      KeepsDecisions(check.value, env);
    }
  }

  /** CREATE POLICY names no command, roles or AS clause: a selected policy keeps its own only where they are the defaults. */
  lemma ScopeKeptExactly(policies: map<string, Policy>)
    ensures (forall t | t in policies :: PatchedAll(policies)[t].scope == policies[t].scope)
       <==> (forall t | t in policies && Selected(policies[t]) :: policies[t].scope == DEFAULT_SCOPE)
  {
    forall t | t in policies
      ensures PatchedAll(policies)[t].scope == if Selected(policies[t]) then DEFAULT_SCOPE else policies[t].scope
    {
    }
  }

  // ---- The standard policy is selected -----------------------------------------------------

  lemma StandardMentionsSetting()
    ensures Contains(Print(STANDARD_POLICY), SETTING_NAME)
  {
    var own, rest := ToUuid(TenantSetting), More(IsNull(TenantSetting), Last(Equals(TenantSetting, TextLiteral(""))));
    var match0 := Equals(Column("tenant_id"), own);
    assert SETTING_NAME <= SETTING[0..];
    ContainsWithin("(", SETTING, ")::uuid", SETTING_NAME);
    ContainsWithin(" = ", Print(own), ")", SETTING_NAME);
    ContainsWithin("tenant_id", " = " + (Print(own) + ")"), "", SETTING_NAME);
    assert (" = " + (Print(own) + ")")) + "" == " = " + (Print(own) + ")");
    ContainsWithin("(", "tenant_id" + (" = " + (Print(own) + ")")), "", SETTING_NAME);
    assert ("tenant_id" + (" = " + (Print(own) + ")"))) + "" == "tenant_id" + (" = " + (Print(own) + ")"));
    ContainsWithin("(", Print(match0), PrintAll(rest, " OR "), SETTING_NAME);
  }

  /** NULLIF cannot begin in the chunk, whatever follows. */
  predicate NoNullIf(chunk: string)
  {
    Inert(chunk, "NULLIF")
  }

  lemma NoNullIfJoin(a: string, b: string)
    requires NoNullIf(a) && NoNullIf(b)
    ensures NoNullIf(a + b)
  {
    InertConcat(a, b, "NULLIF");
  }

  lemma NoNullIfPlain(chunk: string)
    requires 'N' !in chunk
    ensures NoNullIf(chunk)
  {
    NoFirstCharInert(chunk, "NULLIF");
  }

  /** IS NULL comes close, but its second L is followed by a parenthesis. */
  lemma IsNullHoldsNone()
    ensures NoNullIf(" IS NULL)")
  {
    var s := " IS NULL)";
    forall p | 0 <= p < |s| ensures !Compatible(s[p..], "NULLIF") {
      if p == 4 { Clash(s[p..], "NULLIF", 4); } else { Clash(s[p..], "NULLIF", 0); }
    }
  }

  lemma NotHoldsNone()
    ensures NoNullIf("NOT ") && NoNullIf(" AND ")
  {
    forall p | 0 <= p < 4 ensures !Compatible("NOT "[p..], "NULLIF") {
      if p == 0 { Clash("NOT "[p..], "NULLIF", 1); } else { Clash("NOT "[p..], "NULLIF", 0); }
    }
    forall p | 0 <= p < 5 ensures !Compatible(" AND "[p..], "NULLIF") {
      if p == 2 { Clash(" AND "[p..], "NULLIF", 1); } else { Clash(" AND "[p..], "NULLIF", 0); }
    }
  }

  lemma PlainChunks()
    ensures NoNullIf("(") && NoNullIf(")") && NoNullIf(")::uuid") && NoNullIf(" = ") && NoNullIf(" OR ")
    ensures NoNullIf("'") && NoNullIf("'::text") && NoNullIf(SETTING)
  {
    NoNullIfPlain("(");
    NoNullIfPlain(")");
    NoNullIfPlain(")::uuid");
    NoNullIfPlain(" = ");
    NoNullIfPlain(" OR ");
    NoNullIfPlain("'");
    NoNullIfPlain("'::text");
    NoNullIfPlain(SETTING);
  }

  lemma NoNullIfWrap(a: string, b: string, c: string)
    requires NoNullIf(a) && NoNullIf(b) && NoNullIf(c)
    ensures NoNullIf(a + (b + c))
  {
    NoNullIfJoin(b, c);
    NoNullIfJoin(a, b + c);
  }

  /** The expression calls no NULLIF, and none of its names and literals holds its first letter. */
  predicate Quiet(e: Expr)
  {
    match e
    case Column(name) => 'N' !in name
    case TenantSetting => true
    case TextLiteral(text) => 'N' !in text
    case NullIf(_, _) => false
    case ToUuid(a) => Quiet(a)
    case Equals(a, b) => Quiet(a) && Quiet(b)
    case IsNull(a) => Quiet(a)
    case Not(a) => Quiet(a)
    case Or(first, others) => Quiet(first) && AllQuiet(others)
    case And(first, others) => Quiet(first) && AllQuiet(others)
  }

  predicate AllQuiet(es: Exprs)
  {
    Quiet(es.e) && (es.More? ==> AllQuiet(es.others))
  }

  lemma {:induction false} EscapeQuiet(text: string)
    requires 'N' !in text
    ensures 'N' !in Escape(text)
  {
    if text != "" { EscapeQuiet(text[1..]); }
  }

  lemma {:induction false} QuietText(e: Expr)
    requires Quiet(e)
    ensures NoNullIf(Print(e))
    decreases Size(e), 0
  {
    PlainChunks();
    match e {
      case Column(name) => NoNullIfPlain(name);
      case TenantSetting =>
      case TextLiteral(text) =>
        EscapeQuiet(text);
        NoNullIfPlain(Escape(text));
        NoNullIfWrap("'", Escape(text), "'::text");
      case ToUuid(a) =>
        QuietText(a);
        NoNullIfWrap("(", Print(a), ")::uuid");
      case Equals(a, b) =>
        QuietText(a);
        QuietText(b);
        NoNullIfWrap(" = ", Print(b), ")");
        NoNullIfWrap("(", Print(a), " = " + (Print(b) + ")"));
      case IsNull(a) =>
        QuietText(a);
        IsNullHoldsNone();
        NoNullIfWrap("(", Print(a), " IS NULL)");
      case Not(a) =>
        QuietText(a);
        NotHoldsNone();
        NoNullIfJoin(Print(a), ")");
        NoNullIfWrap("(", "NOT ", Print(a) + ")");
      case Or(first, others) =>
        QuietText(first);
        AllQuietText(others, " OR ");
        NoNullIfWrap("(", Print(first), PrintAll(others, " OR "));
      case And(first, others) =>
        QuietText(first);
        NotHoldsNone();
        AllQuietText(others, " AND ");
        NoNullIfWrap("(", Print(first), PrintAll(others, " AND "));
    }
  }

  lemma {:induction false} AllQuietText(es: Exprs, op: string)
    requires AllQuiet(es) && NoNullIf(op)
    ensures NoNullIf(PrintAll(es, op))
    decreases SizeAll(es), 1
  {
    QuietText(es.e);
    match es {
      case Last(e) =>
        NoNullIfPlain(")");
        NoNullIfWrap(op, Print(e), ")");
      case More(e, others) =>
        AllQuietText(others, op);
        NoNullIfWrap(op, Print(e), PrintAll(others, op));
    }
  }

  lemma SelectedText(text: string, held: string, missing: string)
    requires Contains(text, held) && missing != "" && '_' !in missing && Inert(text, missing)
    ensures Like(text, held) && !Like(text, missing)
  {
    InertHoldsNone(text, missing);
    LikeContains(text, held);
    LikeContains(text, missing);
  }

  /** A policy that mentions the setting and holds no NULLIF is selected and rewritten. */
  lemma ExprUpgraded(policies: map<string, Policy>, t: string, e: Expr)
    requires t in policies && policies[t].qual == Some(Print(e)) && PlainNames(e)
    requires Contains(Print(e), SETTING_NAME) && NoNullIf(Print(e))
    ensures Selected(policies[t]) && PatchedAll(policies)[t].qual == Some(Print(Rewrite(e)))
  {
    SelectedText(Print(e), SETTING_NAME, "NULLIF");
    PatchPolicyText(e);
  }

  lemma StandardNames()
    ensures PlainNames(STANDARD_POLICY) && Quiet(STANDARD_POLICY)
  {
    var unset, blank := IsNull(TenantSetting), Equals(TenantSetting, TextLiteral(""));
    assert PlainNames(Equals(Column("tenant_id"), ToUuid(TenantSetting)));
    assert PlainNames(unset) && PlainNames(blank);
    assert AllPlainNames(Last(blank));
    assert AllPlainNames(More(unset, Last(blank)));
    assert Quiet(Equals(Column("tenant_id"), ToUuid(TenantSetting)));
    assert Quiet(unset) && Quiet(blank) && AllQuiet(Last(blank));
    assert AllQuiet(More(unset, Last(blank)));
  }

  lemma StandardUpgraded(policies: map<string, Policy>, t: string)
    requires t in policies && policies[t].qual == Some(Print(STANDARD_POLICY))
    ensures Selected(policies[t]) && PatchedAll(policies)[t].qual == Some(Print(Rewrite(STANDARD_POLICY)))
  {
    StandardMentionsSetting();
    StandardNames();
    QuietText(STANDARD_POLICY);
    ExprUpgraded(policies, t, STANDARD_POLICY);
  }

  /** A standard policy made FOR SELECT comes back for all commands. */
  lemma SelectPolicyWidened()
    ensures var policies := map["t" := Policy(Some(Print(STANDARD_POLICY)), None, Scope("SELECT", {"public"}, true))];
      PatchedAll(policies)["t"].scope == DEFAULT_SCOPE && policies["t"].scope.command == "SELECT"
  {
    StandardUpgraded(map["t" := Policy(Some(Print(STANDARD_POLICY)), None, Scope("SELECT", {"public"}, true))], "t");
  }

  /** Main result for the tables at hand: each holds the standard policy, is selected, and ends with the decision intended. */
  lemma StandardPolicyUpgraded(policies: map<string, Policy>, t: string, env: Env)
    requires t in policies && policies[t].qual == Some(Print(STANDARD_POLICY))
    requires RejectsEmpty(env) && "tenant_id" in env.row && env.row["tenant_id"].Id?
    ensures Selected(policies[t]) && PatchedAll(policies)[t].qual == Some(Print(Rewrite(STANDARD_POLICY)))
    ensures StandardDecision(env)
  {
    StandardUpgraded(policies, t);
    StandardPolicyDecision(env);
  }

  lemma PatchLeavesNone(text: string)
    ensures !Contains(Patch(text), BARE_CAST)
  {
    PatchTextIdempotent(text);
    CastLengths();
    ReplaceGrows(Patch(text), BARE_CAST, NULLIF_CAST);
  }

  lemma BareCastMentionsSetting(text: string)
    requires Contains(text, BARE_CAST)
    ensures Contains(text, SETTING_NAME)
  {
    var i :| 0 <= i <= |text| && BARE_CAST <= text[i..];
    SettingChars();
    var rest := ("(" + SETTING_ARGS) + ")::uuid";
    Assoc(SETTING_NAME, "(" + SETTING_ARGS, ")::uuid");
    assert BARE_CAST[1..] == SETTING_NAME + rest;
    ContainsInside(text, i, BARE_CAST, SETTING_NAME, rest);
  }

  predicate HoldsBareCast(clause: Maybe<string>)
  {
    clause.Some? && Contains(clause.value, BARE_CAST)
  }

  /** A USING with a bare cast is selected unless it mentions NULLIF. */
  lemma BareCastSelected(p: Policy)
    requires HoldsBareCast(p.qual)
    ensures Selected(p) <==> !Contains(p.qual.value, "NULLIF")
  {
    BareCastMentionsSetting(p.qual.value);
    LikeContains(p.qual.value, SETTING_NAME);
    LikeContains(p.qual.value, "NULLIF");
  }

  lemma BareCastInUsing(p: Policy)
    ensures HoldsBareCast(PatchedPolicy(p).qual) <==> HoldsBareCast(p.qual) && Contains(p.qual.value, "NULLIF")
  {
    if p.qual.Some? { PatchLeavesNone(p.qual.value); }
    if HoldsBareCast(p.qual) { BareCastSelected(p); }
  }

  lemma BareCastInCheck(p: Policy)
    ensures HoldsBareCast(PatchedPolicy(p).withCheck) <==> HoldsBareCast(p.withCheck) && !Selected(p)
  {
    if p.withCheck.Some? { PatchLeavesNone(p.withCheck.value); }
  }

  /**
   Where a bare cast is left: in USING exactly if it was there beside a NULLIF, and in WITH CHECK exactly if it was there
   and the policy was not selected by its USING.
   */
  lemma BareCastLeftExactly(policies: map<string, Policy>, t: string)
    requires t in policies
    ensures HoldsBareCast(PatchedAll(policies)[t].qual)
       <==> HoldsBareCast(policies[t].qual) && Contains(policies[t].qual.value, "NULLIF")
    ensures HoldsBareCast(PatchedAll(policies)[t].withCheck) <==> HoldsBareCast(policies[t].withCheck) && !Selected(policies[t])
  {
    BareCastInUsing(policies[t]);
    BareCastInCheck(policies[t]);
  }

  /** A bare cast survives in a WITH CHECK whose policy mentions neither the setting nor NULLIF in USING. */
  lemma BareCastSurvives()
    ensures var policies := map["t" := Policy(Some("true"), Some(BARE_CAST), DEFAULT_SCOPE)];
      PatchedAll(policies) == policies && HoldsBareCast(policies["t"].withCheck)
  {
    var policies := map["t" := Policy(Some("true"), Some(BARE_CAST), DEFAULT_SCOPE)];
    assert !Selected(policies["t"]) by {
      assert forall i | 0 <= i <= 4 :: |"true"[i..]| < |"current_setting"|;
    }
    assert BARE_CAST <= BARE_CAST[0..];
  }

  lemma ContainsInside(text: string, i: nat, pat: string, name: string, rest: string)
    requires i <= |text| && pat != "" && pat <= text[i..] && pat[1..] == name + rest
    ensures Contains(text, name)
  {
    assert text[i + 1..][..|pat| - 1] == pat[1..];
    assert (name + rest)[..|name|] == name;
    assert name <= text[i + 1..];
  }

  lemma CastLengths()
    ensures |NULLIF_CAST| > |BARE_CAST|
  {
  }

  // ---- The casts as SQL literals in the DO block -----------------------------------------

  function SqlLiteral(value: string): string
  {
    "'" + Replace(value, "'", "''") + "'"
  }

  datatype Reading = Unterminated | Read(value: string, rest: string)

  /** How PostgreSQL reads a literal once past its opening quote. */
  function ReadLiteral(s: string): Reading
  {
    if s == "" then Unterminated
    else if s[0] != '\'' then Prepend(s[0], ReadLiteral(s[1..]))
    else if |s| > 1 && s[1] == '\'' then Prepend('\'', ReadLiteral(s[2..]))
    else Read("", s[1..])
  }

  function Prepend(c: char, r: Reading): Reading
  {
    match r
    case Unterminated => Unterminated
    case Read(value, rest) => Read([c] + value, rest)
  }

  /** Any text embedded through `_sql_literal` is read back unchanged, and reading stops at its closing quote. */
  lemma SqlLiteralRoundTrip(value: string, rest: string)
    requires rest == "" || rest[0] != '\''
    ensures (SqlLiteral(value) + rest)[0] == '\''
    ensures ReadLiteral((SqlLiteral(value) + rest)[1..]) == Read(value, rest)
  {
    ReadBack(value, rest);
    assert (SqlLiteral(value) + rest)[1..] == Replace(value, "'", "''") + ("'" + rest);
  }

  lemma QuoteCons(c: char, t: string)
    ensures Replace([c] + t, "'", "''") == (if c == '\'' then "''" else [c]) + Replace(t, "'", "''")
  {
    assert ([c] + t)[1..] == t;
    assert ([c] + t)[0] == c && "'"[0] == '\'';
  }

  lemma ReadCons(c: char, tail: string)
    ensures ReadLiteral((if c == '\'' then "''" else [c]) + tail) == Prepend(c, ReadLiteral(tail))
  {
    assert ([c] + tail)[1..] == tail && ("''" + tail)[2..] == tail;
  }

  lemma {:induction false} ReadBack(value: string, rest: string)
    requires rest == "" || rest[0] != '\''
    ensures ReadLiteral(Replace(value, "'", "''") + ("'" + rest)) == Read(value, rest)
  {
    if value == "" {
      assert Replace(value, "'", "''") + ("'" + rest) == "'" + rest;
    } else {
      var c, t := value[0], value[1..];
      assert value == [c] + t;
      ReadBack(t, rest);
      QuoteCons(c, t);
      Assoc(if c == '\'' then "''" else [c], Replace(t, "'", "''"), "'" + rest);
      ReadCons(c, Replace(t, "'", "''") + ("'" + rest));
    }
  }
}
