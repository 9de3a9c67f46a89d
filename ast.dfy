/**
 * The abstract syntax of the ship programs (asteroids.model.programs):
 * the tagged values DoubleT, BooleanT and EntityT, the typed expressions,
 * and the statements with the list flattening of Sequence and the body
 * rule of ComplexStatement. Entities are a type parameter E, so that this
 * module does not depend on the space objects it talks about. Every Java
 * class of the hierarchies is a constructor; the line of a statement is
 * kept because Sequence records it as the execute position.
 */
module Programs {
  import opened Numerics

  /** A DoubleT, BooleanT or EntityT holder, as a value. */
  datatype Value<E> = DoubleT(d: real) | BooleanT(b: bool) | EntityT(e: E)

  /** The three classes of holder, the run-time types of the language. */
  datatype Tag = DoubleTag | BooleanTag | EntityTag

  function TagOf<E>(v: Value<E>): Tag
  {
    match v
    case DoubleT(_) => DoubleTag
    case BooleanT(_) => BooleanTag
    case EntityT(_) => EntityTag
  }

  /** The holder the no-argument constructors create: 0.0 for DoubleT, false for BooleanT. */
  function DefaultOf<E>(t: Tag, none: E): (r: Value<E>)
    ensures TagOf(r) == t
    ensures t == DoubleTag ==> r == DoubleT(0.0)
    ensures t == BooleanTag ==> r == BooleanT(false)
    ensures t == EntityTag ==> r == EntityT(none)
  {
    match t
    case DoubleTag => DoubleT(0.0)
    case BooleanTag => BooleanT(false)
    case EntityTag => EntityT(none)
  }

  datatype Expr<E> =
    | DoubleLiteral(d: real)
    | BooleanLiteral(b: bool)
    | Self
    | Null
    | EntityLiteral(entity: E)
    | Variable(name: string)
    | Add(e1: Expr<E>, e2: Expr<E>)
    | Substraction(e1: Expr<E>, e2: Expr<E>)
    | Multiplication(e1: Expr<E>, e2: Expr<E>)
    | Division(e1: Expr<E>, e2: Expr<E>)
    | GetRadius(operand: Expr<E>)
    | GetX(operand: Expr<E>)
    | GetY(operand: Expr<E>)
    | GetDir
    | LessThanOrEqualTo(e1: Expr<E>, e2: Expr<E>)
    | GreaterThan(e1: Expr<E>, e2: Expr<E>)
    | Inequality(e1: Expr<E>, e2: Expr<E>)
    | Equality(e1: Expr<E>, e2: Expr<E>)
    | TrueOrFalse(cond: Expr<E>, e1: Expr<E>, e2: Expr<E>)

  /**
   * The holder class an expression's value has: the type each class
   * passes to its superclass constructor, or returns.
   */
  function DeclaredTag<E>(e: Expr<E>): Tag
  {
    match e
    case BooleanLiteral(_) => BooleanTag
    case Self => EntityTag
    case Null => EntityTag
    case EntityLiteral(_) => EntityTag
    case LessThanOrEqualTo(_, _) => BooleanTag
    case GreaterThan(_, _) => BooleanTag
    case Inequality(_, _) => BooleanTag
    case Equality(_, _) => BooleanTag
    case _ => DoubleTag
  }

  /**
   * The classes that extend DoubleExpression: Variable, GetDir, GetX and
   * the ComposedDouble operators (TrueOrFalse among them). A literal,
   * GetRadius and GetY extend Expression directly.
   */
  predicate IsDoubleExpression<E>(e: Expr<E>)
  {
    e.Variable? || e.GetDir? || e.GetX? || e.Add? || e.Substraction? || e.Multiplication? || e.Division? || e.TrueOrFalse?
  }

  /** The classes that extend BooleanExpression: the ComposedBoolean comparisons. */
  predicate IsBooleanExpression<E>(e: Expr<E>)
  {
    e.LessThanOrEqualTo? || e.GreaterThan? || e.Inequality? || e.Equality?
  }

  /** Every DoubleExpression is declared to give a number, every BooleanExpression a boolean. */
  lemma ExpressionClassesHaveTheirTag<E>(e: Expr<E>)
    ensures IsDoubleExpression(e) ==> DeclaredTag(e) == DoubleTag
    ensures IsBooleanExpression(e) ==> DeclaredTag(e) == BooleanTag
  {
  }

  /**
   * The statements. The branches of If may be null; the body of While and
   * For is the list of statements of the Sequence ComplexStatement keeps.
   */
  datatype Stmt<E> =
    | Assignment(line: int, name: string, rhs: Expr<E>)
    | If(line: int, cond: Expr<E>, thenBranch: Option<Stmt<E>>, elseBranch: Option<Stmt<E>>)
    | While(line: int, cond: Expr<E>, body: seq<Stmt<E>>)
    | For(line: int, cond: Expr<E>, body: seq<Stmt<E>>)
    | Sequence(line: int, stmts: seq<Stmt<E>>)
    | Turn(line: int, angle: Expr<E>)
    | EnableThruster(line: int)
    | DisableThruster(line: int)
    | Fire(line: int)
    | Skip(line: int)

  /** The subclasses of ActionStatement, after which a Sequence run stops. */
  predicate IsAction<E>(s: Stmt<E>)
  {
    s.Turn? || s.EnableThruster? || s.DisableThruster? || s.Fire? || s.Skip?
  }

  predicate HasAction<E>(ss: seq<Stmt<E>>)
  {
    exists i :: 0 <= i < |ss| && IsAction(ss[i])
  }

  /** The index of the first action statement of a list, if there is one. */
  function FirstAction<E>(ss: seq<Stmt<E>>): (r: Option<nat>)
    ensures r.Some? <==> HasAction(ss)
    ensures r.Some? ==> r.value < |ss| && IsAction(ss[r.value])
    ensures r.Some? ==> forall i :: 0 <= i < r.value ==> !IsAction(ss[i])
  {
    if ss == [] then None
    else if IsAction(ss[0]) then Some(0)
    else
      assert forall i :: 1 <= i < |ss| ==> ss[i] == ss[1..][i - 1];
      match FirstAction(ss[1..])
      case None => None
      case Some(k) => Some(k + 1)
  }

  /** A size of statements that every execution step makes smaller. */
  function Size<E>(s: Stmt<E>): nat
  {
    match s
    case If(_, _, t, o) => 1 + (if t.Some? then Size(t.value) else 0) + (if o.Some? then Size(o.value) else 0)
    case While(_, _, body) => 1 + SizeOfAll(body)
    case For(_, _, body) => 1 + SizeOfAll(body)
    case Sequence(_, ss) => 1 + SizeOfAll(ss)
    case _ => 1
  }

  function SizeOfAll<E>(ss: seq<Stmt<E>>): nat
  {
    if ss == [] then 0 else SizeOfAll(ss[..|ss| - 1]) + Size(ss[|ss| - 1])
  }

  /** Each statement of a list is smaller than the whole list. */
  lemma {:induction false} ElementIsSmaller<E>(ss: seq<Stmt<E>>, i: nat)
    requires i < |ss|
    ensures Size(ss[i]) <= SizeOfAll(ss)
  {
    if i < |ss| - 1 {
      ElementIsSmaller(ss[..|ss| - 1], i);
    }
  }

  // Sequence.setStatements: null entries are dropped, a nested Sequence is spliced in.

  /** What one entry of the given list adds to the stored list. */
  function Contribution<E>(entry: Option<Stmt<E>>): seq<Stmt<E>>
  {
    match entry
    case None => []
    case Some(Sequence(_, ss)) => ss
    case Some(s) => [s]
  }

  /** The list `setStatements` stores for the given one. */
  function Flatten<E>(entries: seq<Option<Stmt<E>>>): seq<Stmt<E>>
  {
    if entries == [] then []
    else Flatten(entries[..|entries| - 1]) + Contribution(entries[|entries| - 1])
  }

  /** The loop of `setStatements`, which builds a new list entry by entry. */
  method SetStatements<E>(entries: seq<Option<Stmt<E>>>) returns (stored: seq<Stmt<E>>)
    ensures stored == Flatten(entries)
  {
    stored := [];
    for i := 0 to |entries|
      invariant stored == Flatten(entries[..i])
    {
      assert entries[..i + 1][..i] == entries[..i];
      match entries[i]
      case None =>
      case Some(s) =>
        if s.Sequence? {
          stored := stored + s.stmts;
        } else {
          stored := stored + [s];
        }
    }
    assert entries[..|entries|] == entries;
  }

  /** `new Sequence(line, column, statements)`. */
  method NewSequence<E>(line: int, entries: seq<Option<Stmt<E>>>) returns (s: Stmt<E>)
    ensures s == Sequence(line, Flatten(entries))
  {
    var stored := SetStatements(entries);
    s := Sequence(line, stored);
  }

  /** Flattening the concatenation of two lists concatenates their flattenings: the order is kept. */
  lemma {:induction false} FlattenDistributes<E>(a: seq<Option<Stmt<E>>>, b: seq<Option<Stmt<E>>>)
    ensures Flatten(a + b) == Flatten(a) + Flatten(b)
  {
    if b != [] {
      assert (a + b)[..|a + b| - 1] == a + b[..|b| - 1];
      FlattenDistributes(a, b[..|b| - 1]);
    } else {
      assert a + b == a;
    }
  }

  /** A list without null entries and without sequences is stored as it is. */
  lemma {:induction false} FlattenKeepsPlainLists<E>(ss: seq<Stmt<E>>)
    requires forall i :: 0 <= i < |ss| ==> !ss[i].Sequence?
    ensures Flatten(seq(|ss|, i requires 0 <= i < |ss| => Some(ss[i]))) == ss
  {
    if ss != [] {
      var init := ss[..|ss| - 1];
      FlattenKeepsPlainLists(init);
      assert seq(|ss|, i requires 0 <= i < |ss| => Some(ss[i]))[..|ss| - 1]
          == seq(|init|, i requires 0 <= i < |init| => Some(init[i]));
    }
  }

  /** A list is flat when no element is itself a Sequence. */
  predicate IsFlat<E>(ss: seq<Stmt<E>>)
  {
    forall i :: 0 <= i < |ss| ==> !ss[i].Sequence?
  }

  /** When every nested Sequence is flat (as one built by `setStatements` is), the stored list is flat. */
  lemma {:induction false} FlattenIsFlat<E>(entries: seq<Option<Stmt<E>>>)
    requires forall i :: 0 <= i < |entries| && entries[i].Some? && entries[i].value.Sequence? ==> IsFlat(entries[i].value.stmts)
    ensures IsFlat(Flatten(entries))
  {
    if entries != [] {
      FlattenIsFlat(entries[..|entries| - 1]);
    }
  }

  /**
   * Every stored statement comes from a non-null entry: it is that entry,
   * or a statement of the nested Sequence that entry is.
   */
  lemma {:induction false} FlattenDropsNulls<E>(entries: seq<Option<Stmt<E>>>, s: Stmt<E>)
    requires s in Flatten(entries)
    ensures exists i :: 0 <= i < |entries| && entries[i].Some?
              && (entries[i].value == s || (entries[i].value.Sequence? && s in entries[i].value.stmts))
  {
    var init := entries[..|entries| - 1];
    if s in Flatten(init) {
      FlattenDropsNulls(init, s);
      var i :| 0 <= i < |init| && init[i].Some? && (init[i].value == s || (init[i].value.Sequence? && s in init[i].value.stmts));
      assert entries[i] == init[i];
    } else {
      assert entries[|entries| - 1].Some?;
    }
  }

  /** Conversely every non-null, non-Sequence entry is stored. */
  lemma {:induction false} FlattenKeepsStatements<E>(entries: seq<Option<Stmt<E>>>, i: nat)
    requires i < |entries| && entries[i].Some? && !entries[i].value.Sequence?
    ensures entries[i].value in Flatten(entries)
  {
    if i < |entries| - 1 {
      FlattenKeepsStatements(entries[..|entries| - 1], i);
    }
  }

  // ComplexStatement.setBody.

  /** The statements of the body a While or For keeps: a Sequence's own, otherwise none. */
  function BodyOf<E>(body: Option<Stmt<E>>): (r: seq<Stmt<E>>)
    ensures body.Some? && body.value.Sequence? ==> r == body.value.stmts
    ensures !(body.Some? && body.value.Sequence?) ==> r == []
  {
    match body
    case Some(Sequence(_, ss)) => ss
    case _ => []
  }

  /** `new While(line, column, program, condition, body)`. */
  function NewWhile<E>(line: int, cond: Expr<E>, body: Option<Stmt<E>>): (r: Stmt<E>)
    ensures r.While? && r.line == line && r.cond == cond && r.body == BodyOf(body)
  {
    While(line, cond, BodyOf(body))
  }

  /** `new For(line, column, program, counter, body)`. */
  function NewFor<E>(line: int, cond: Expr<E>, body: Option<Stmt<E>>): (r: Stmt<E>)
    ensures r.For? && r.line == line && r.cond == cond && r.body == BodyOf(body)
  {
    For(line, cond, BodyOf(body))
  }

  // For's repetition count: `(int) Math.round(counter)`.

  const TwoTo31: int := 0x8000_0000
  const TwoTo32: int := 0x1_0000_0000
  const TwoTo63: int := 0x8000_0000_0000_0000

  /** `Math.round`: the nearest long, halves rounded up, saturated at the bounds of long. */
  function RoundToLong(x: real): (r: int)
    ensures -TwoTo63 <= r < TwoTo63
  {
    var n := (x + 0.5).Floor;
    if n >= TwoTo63 then TwoTo63 - 1 else if n < -TwoTo63 then -TwoTo63 else n
  }

  /** The narrowing `(int)` of a long: its low 32 bits, read as a signed number. */
  function ToInt(n: int): (r: int)
    ensures -TwoTo31 <= r < TwoTo31
    ensures (r - n) % TwoTo32 == 0
  {
    (n + TwoTo31) % TwoTo32 - TwoTo31
  }

  /** The repetition count For computes for a counter value. */
  function RepetitionCount(x: real): int
  {
    ToInt(RoundToLong(x))
  }

  /** For counters in the range of int the count is the rounded counter. */
  lemma RepetitionCountIsRounded(x: real)
    requires -TwoTo31 as real <= x < (TwoTo31 - 1) as real
    ensures RepetitionCount(x) == (x + 0.5).Floor
  {
  }

  /** A counter of 2^32 wraps around to a count of zero. */
  lemma RepetitionCountWraps()
    ensures RepetitionCount(TwoTo32 as real) == 0
  {
  }
}
