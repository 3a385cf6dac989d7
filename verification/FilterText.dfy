/** The WHERE clauses the database handler writes, and what a database makes of them: a clause is
    read as a list of conditions, and the conditions take the arguments one after the other
    (pkg/components/handler/database: aux_deployments_read.go, deployments_read.go, handler.go). */
module FilterText {
  import opened Prelude
  import opened SubSelects

  datatype Col =
    | Id | DepId | Ref | Name | Image | Enabled | Recreate | ModId | Source | Channel
    | SecId | ResId | AsMount | AsEnv

  function ColName(col: Col): string {
    match col
    case Id => "id"
    case DepId => "dep_id"
    case Ref => "ref"
    case Name => "name"
    case Image => "image"
    case Enabled => "enabled"
    case Recreate => "recreate"
    case ModId => "mod_id"
    case Source => "source"
    case Channel => "channel"
    case SecId => "sec_id"
    case ResId => "res_id"
    case AsMount => "as_mount"
    case AsEnv => "as_env"
  }

  /** A row: what stands in each of its columns. */
  type Row = map<Col, Arg>

  // ----- The conditions of a clause -----

  datatype Op = Eq | Ne

  /** `col = ?`, `col IN (?, ..)` and `col IN (SELECT ..)`, and the negated forms. */
  datatype Cond = Compare(col: Col, op: Op) | In(col: Col, negated: bool, n: nat)
                | InQuery(col: Col, negated: bool, query: Query)

  /** ` WHERE ` and the conditions, with the same connective between any two. */
  datatype Clause = Clause(connective: Connective, conds: seq<Cond>)

  function Holes(c: Cond): nat {
    match c
    case Compare(_, _) => 1
    case In(_, _, n) => n
    case InQuery(_, _, query) => 2 * Parts(query)
  }

  function Placeholders(conds: seq<Cond>): nat {
    if conds == [] then 0 else Holes(conds[0]) + Placeholders(conds[1..])
  }

  ghost predicate CondHolds(c: Cond, args: seq<Arg>, labels: set<LabelRow>, row: Row) {
    && c.col in row
    && match c
       case Compare(col, op) => |args| == 1 && (op == Eq <==> args[0] == row[col])
       case In(col, negated, _) => row[col] in args <==> !negated
       case InQuery(col, negated, query) =>
         if negated then forall v :: Yields(query, args, labels, v) ==> v.Some? && row[col] != Text(v.value)
         else exists v :: Yields(query, args, labels, Some(v)) && row[col] == Text(v)
  }

  /** The conditions take their arguments one after the other. */
  ghost predicate Holds(connective: Connective, conds: seq<Cond>, args: seq<Arg>, labels: set<LabelRow>, row: Row) {
    if conds == [] then connective == And
    else
      var k := Holes(conds[0]);
      k <= |args|
      && if connective == And then
           CondHolds(conds[0], args[..k], labels, row) && Holds(connective, conds[1..], args[k..], labels, row)
         else CondHolds(conds[0], args[..k], labels, row) || Holds(connective, conds[1..], args[k..], labels, row)
  }

  ghost predicate ClauseHolds(clause: Clause, args: seq<Arg>, labels: set<LabelRow>, row: Row) {
    clause.conds == [] || Holds(clause.connective, clause.conds, args, labels, row)
  }

  // ----- Their text -----

  function Repeat(s: string, n: nat): string {
    if n == 0 then "" else s + Repeat(s, n - 1)
  }

  function QuestionMarks(n: int): string {
    if n <= 0 then "" else if n >= 2 then Repeat("?, ", n - 1) + "?" else "?"
  }

  function OpText(op: Op): string {
    match op
    case Eq => "= ?"
    case Ne => "<> ?"
  }

  function InStart(negated: bool): string {
    if negated then "NOT IN (" else "IN ("
  }

  // As in the sub-selects each text is written in front of what follows it.

  function InnerText(c: Cond, rest: string): string
    requires !c.Compare?
  {
    if c.In? then QuestionMarks(c.n) + rest else QueryText(c.query, rest)
  }

  function TestText(c: Cond, rest: string): string {
    if c.Compare? then OpText(c.op) + rest else InStart(c.negated) + InnerText(c, ")" + rest)
  }

  function CondText(c: Cond, rest: string): string {
    ColName(c.col) + (" " + TestText(c, rest))
  }

  function CondsText(connective: Connective, conds: seq<Cond>): string {
    if conds == [] then ""
    else CondText(conds[0], if |conds| == 1 then "" else ConnectiveText(connective) + CondsText(connective, conds[1..]))
  }

  function ClauseText(clause: Clause): string {
    if clause.conds == [] then "" else " WHERE " + CondsText(clause.connective, clause.conds)
  }

  /** Lists are not empty, and table names are words. */
  ghost predicate WellFormed(c: Cond) {
    && (c.In? ==> c.n > 0) && (c.InQuery? ==> IsQuery(c.query))
  }

  ghost predicate AllWellFormed(conds: seq<Cond>) {
    forall c | c in conds :: WellFormed(c)
  }

  ghost predicate Reads(text: string, clause: Clause) {
    AllWellFormed(clause.conds) && text == ClauseText(clause)
  }

  // ----- A text has one reading -----

  lemma SplitAt(d: char, a: string, b: string, x: string, y: string)
    requires d !in a && d !in b && a + ([d] + x) == b + ([d] + y)
    ensures a == b && x == y
  {
    var t := a + ([d] + x);
    assert t == b + ([d] + y);
    assert t[|a|] == d && t[|b|] == d;
    assert forall i | 0 <= i < |a| :: t[i] == a[i];
    assert forall i | 0 <= i < |b| :: t[i] == b[i];
    assert |a| == |b|;
    assert a == t[..|a|] == b;
    assert x == t[|a| + 1..] == y;
  }

  lemma MarksUnfold(n: nat)
    requires n > 0
    ensures QuestionMarks(n) == if n == 1 then "?" else "?, " + QuestionMarks(n - 1)
  {
    if n > 1 {
      assert Repeat("?, ", n - 1) == "?, " + Repeat("?, ", n - 2);
    }
  }

  lemma {:induction false} MarksShape(n: nat)
    requires n > 0
    ensures |QuestionMarks(n)| == 3 * n - 2 && ')' !in QuestionMarks(n)
  {
    MarksUnfold(n);
    if n > 1 {
      MarksShape(n - 1);
    }
  }

  lemma SameMarks(n: nat, m: nat, s: string, t: string)
    requires n > 0 && m > 0 && QuestionMarks(n) + (")" + s) == QuestionMarks(m) + (")" + t)
    ensures n == m && s == t
  {
    MarksShape(n);
    MarksShape(m);
    SplitAt(')', QuestionMarks(n), QuestionMarks(m), s, t);
  }

  lemma QueryStarts(q: Query, rest: string)
    ensures |QueryText(q, rest)| > 0 && QueryText(q, rest)[0] == 'S'
  {
  }

  lemma InnerStarts(c: Cond, rest: string)
    requires WellFormed(c) && !c.Compare?
    ensures |InnerText(c, rest)| > 0 && InnerText(c, rest)[0] == if c.In? then '?' else 'S'
  {
    if c.In? {
      MarksUnfold(c.n);
    } else {
      QueryStarts(c.query, rest);
    }
  }

  lemma SameInner(c: Cond, d: Cond, s: string, t: string)
    requires WellFormed(c) && WellFormed(d) && !c.Compare? && !d.Compare?
    requires c.col == d.col && c.negated == d.negated && InnerText(c, ")" + s) == InnerText(d, ")" + t)
    ensures c == d && s == t
  {
    InnerStarts(c, ")" + s);
    InnerStarts(d, ")" + t);
    if c.In? {
      SameMarks(c.n, d.n, s, t);
    } else {
      SameQuery(c.query, d.query, ")" + s, ")" + t);
      Cancel(")", s, t);
    }
  }

  lemma TestStarts(c: Cond, rest: string)
    ensures |TestText(c, rest)| > 0
    ensures TestText(c, rest)[0] == if c.Compare? then (if c.op == Eq then '=' else '<')
                                    else if c.negated then 'N' else 'I'
  {
  }

  lemma SameTest(c: Cond, d: Cond, s: string, t: string)
    requires WellFormed(c) && WellFormed(d) && c.col == d.col && TestText(c, s) == TestText(d, t)
    ensures c == d && s == t
  {
    TestStarts(c, s);
    TestStarts(d, t);
    if c.Compare? {
      Cancel(OpText(c.op), s, t);
    } else {
      Cancel(InStart(c.negated), InnerText(c, ")" + s), InnerText(d, ")" + t));
      SameInner(c, d, s, t);
    }
  }

  lemma NamesAreWords(col: Col)
    ensures IsWord(ColName(col))
  {
  }

  lemma NameStarts(col: Col)
    ensures var name := ColName(col);
            && |name| >= 2
            && (|name|, name[0], name[1]) == match col
               case Id => (2, 'i', 'd') case DepId => (6, 'd', 'e') case Ref => (3, 'r', 'e') case Name => (4, 'n', 'a')
               case Image => (5, 'i', 'm') case Enabled => (7, 'e', 'n') case Recreate => (8, 'r', 'e')
               case ModId => (6, 'm', 'o') case Source => (6, 's', 'o') case Channel => (7, 'c', 'h')
               case SecId => (6, 's', 'e') case ResId => (6, 'r', 'e') case AsMount => (8, 'a', 's')
               case AsEnv => (6, 'a', 's')
  {
  }

  lemma NamesDiffer(a: Col, b: Col)
    requires ColName(a) == ColName(b)
    ensures a == b
  {
    NameStarts(a);
    NameStarts(b);
  }

  lemma SplitName(a: Col, b: Col, x: string, y: string)
    requires Stops(x) && Stops(y) && ColName(a) + x == ColName(b) + y
    ensures a == b && x == y
  {
    NamesAreWords(a);
    NamesAreWords(b);
    SplitWord(ColName(a), ColName(b), x, y);
    NamesDiffer(a, b);
  }

  lemma SameCond(c: Cond, d: Cond, s: string, t: string)
    requires WellFormed(c) && WellFormed(d) && CondText(c, s) == CondText(d, t)
    ensures c == d && s == t
  {
    SplitName(c.col, d.col, " " + TestText(c, s), " " + TestText(d, t));
    Cancel(" ", TestText(c, s), TestText(d, t));
    SameTest(c, d, s, t);
  }

  function Remaining(connective: Connective, conds: seq<Cond>): string
    requires conds != []
  {
    if |conds| == 1 then "" else ConnectiveText(connective) + CondsText(connective, conds[1..])
  }

  /** What remains is empty or has a connective in front, so one list ends where the other does. */
  lemma SameRemaining(x: Connective, a: seq<Cond>, y: Connective, b: seq<Cond>)
    requires a != [] && b != [] && Remaining(x, a) == Remaining(y, b)
    ensures |a| == 1 <==> |b| == 1
    ensures |a| > 1 && |b| > 1 ==> x == y && CondsText(x, a[1..]) == CondsText(y, b[1..])
  {
    assert |Remaining(x, a)| == 0 <==> |a| == 1;
    assert |Remaining(y, b)| == 0 <==> |b| == 1;
    if |a| > 1 && |b| > 1 {
      SplitConnective(x, y, CondsText(x, a[1..]), CondsText(y, b[1..]));
    }
  }

  lemma SameFirst(x: Connective, a: seq<Cond>, y: Connective, b: seq<Cond>)
    requires a != [] && b != [] && WellFormed(a[0]) && WellFormed(b[0]) && CondsText(x, a) == CondsText(y, b)
    ensures a[0] == b[0] && (|a| == 1 <==> |b| == 1)
    ensures |a| > 1 && |b| > 1 ==> x == y && CondsText(x, a[1..]) == CondsText(y, b[1..])
  {
    SameCond(a[0], b[0], Remaining(x, a), Remaining(y, b));
    SameRemaining(x, a, y, b);
  }

  ghost predicate AreRead(text: string, connective: Connective, conds: seq<Cond>) {
    conds != [] && AllWellFormed(conds) && text == CondsText(connective, conds)
  }

  /** The conditions are a reading of the text. */
  ghost predicate ReadsConds(text: string, connective: Connective, conds: seq<Cond>) {
    exists t :: t == text && AreRead(t, connective, conds)
  }

  lemma ReadsOneLess(text: string, x: Connective, a: seq<Cond>, y: Connective, b: seq<Cond>) returns (text': string)
    requires ReadsConds(text, x, a) && ReadsConds(text, y, b)
    ensures a != [] && b != [] && a[0] == b[0] && (|a| == 1 <==> |b| == 1)
    ensures |a| > 1 ==> x == y && ReadsConds(text', x, a[1..]) && ReadsConds(text', y, b[1..])
  {
    assert AreRead(text, x, a) && AreRead(text, y, b);
    SameFirst(x, a, y, b);
    text' := CondsText(x, a[1..]);
    if |a| > 1 {
      assert AreRead(text', x, a[1..]) && AreRead(text', y, b[1..]);
    }
  }

  lemma {:induction false} SameConds(text: string, x: Connective, a: seq<Cond>, y: Connective, b: seq<Cond>)
    requires ReadsConds(text, x, a) && ReadsConds(text, y, b)
    ensures a == b && (|a| > 1 ==> x == y)
    decreases |a|
  {
    var text' := ReadsOneLess(text, x, a, y, b);
    if |a| > 1 {
      SameConds(text', x, a[1..], y, b[1..]);
    }
    assert a == [a[0]] + a[1..] && b == [b[0]] + b[1..];
  }

  /** The text of a clause says which conditions it has, and what is between them: no two clauses are
      written alike. */
  lemma OneReading(text: string, a: Clause, b: Clause)
    requires Reads(text, a) && Reads(text, b)
    ensures a.conds == b.conds && (|a.conds| > 1 ==> a.connective == b.connective)
  {
    assert |text| > 0 <==> a.conds != [];
    assert |text| > 0 <==> b.conds != [];
    if a.conds != [] {
      Cancel(" WHERE ", CondsText(a.connective, a.conds), CondsText(b.connective, b.conds));
      var text' := CondsText(a.connective, a.conds);
      assert AreRead(text', a.connective, a.conds) && AreRead(text', b.connective, b.conds);
      SameConds(text', a.connective, a.conds, b.connective, b.conds);
    }
  }

  lemma SingleHolds(connective: Connective, conds: seq<Cond>, args: seq<Arg>, labels: set<LabelRow>, row: Row)
    requires |conds| == 1
    ensures Holds(connective, conds, args, labels, row) <==>
            Holes(conds[0]) <= |args| && CondHolds(conds[0], args[..Holes(conds[0])], labels, row)
  {
    assert conds[1..] == [];
  }

  /** Hence it has one meaning: the connective of a single condition does not matter. */
  lemma OneMeaning(text: string, a: Clause, b: Clause, args: seq<Arg>, labels: set<LabelRow>, row: Row)
    requires Reads(text, a) && Reads(text, b)
    ensures ClauseHolds(a, args, labels, row) <==> ClauseHolds(b, args, labels, row)
  {
    OneReading(text, a, b);
    if |a.conds| == 1 {
      SingleHolds(a.connective, a.conds, args, labels, row);
      SingleHolds(b.connective, b.conds, args, labels, row);
    }
  }

  // ----- A question mark for every argument -----

  lemma {:induction false} MarksOfQuestionMarks(n: nat)
    ensures Marks(QuestionMarks(n)) == n
  {
    if n > 1 {
      MarksUnfold(n);
      NoMarks(", ");
      MarksConcat("?", ", ");
      assert "?, " == "?" + ", ";
      MarksConcat("?, ", QuestionMarks(n - 1));
      MarksOfQuestionMarks(n - 1);
    }
  }

  lemma MarksOfOp(op: Op)
    ensures Marks(OpText(op)) == 1
  {
    var sign := if op == Eq then "= " else "<> ";
    NoMarks(sign);
    MarksConcat(sign, "?");
    assert OpText(op) == sign + "?";
  }

  lemma MarksOfTest(c: Cond, rest: string)
    requires WellFormed(c)
    ensures Marks(TestText(c, rest)) == Holes(c) + Marks(rest)
  {
    if c.Compare? {
      MarksConcat(OpText(c.op), rest);
      MarksOfOp(c.op);
    } else {
      NoMarksBefore(InStart(c.negated), InnerText(c, ")" + rest));
      NoMarksBefore(")", rest);
      if c.In? {
        MarksConcat(QuestionMarks(c.n), ")" + rest);
        MarksOfQuestionMarks(c.n);
      } else {
        MarksOfQuery(c.query, ")" + rest);
      }
    }
  }

  lemma MarksOfCond(c: Cond, rest: string)
    requires WellFormed(c)
    ensures Marks(CondText(c, rest)) == Holes(c) + Marks(rest)
  {
    NamesAreWords(c.col);
    NoMarksBefore(ColName(c.col), " " + TestText(c, rest));
    NoMarksBefore(" ", TestText(c, rest));
    MarksOfTest(c, rest);
  }

  lemma MarksOfRemaining(connective: Connective, conds: seq<Cond>)
    requires conds != []
    ensures Marks(Remaining(connective, conds)) == Marks(CondsText(connective, conds[1..]))
  {
    if |conds| > 1 {
      NoMarksBefore(ConnectiveText(connective), CondsText(connective, conds[1..]));
    }
  }

  lemma CondsUnfold(connective: Connective, conds: seq<Cond>)
    requires conds != []
    ensures CondsText(connective, conds) == CondText(conds[0], Remaining(connective, conds))
  {
  }

  lemma {:induction false} MarksOfConds(connective: Connective, conds: seq<Cond>)
    requires AllWellFormed(conds)
    ensures Marks(CondsText(connective, conds)) == Placeholders(conds)
  {
    if conds != [] {
      CondsUnfold(connective, conds);
      MarksOfConds(connective, conds[1..]);
      MarksOfCond(conds[0], Remaining(connective, conds));
      MarksOfRemaining(connective, conds);
    }
  }

  lemma MarksOfWhere(connective: Connective, conds: seq<Cond>)
    requires AllWellFormed(conds)
    ensures Marks(" WHERE " + CondsText(connective, conds)) == Placeholders(conds)
  {
    MarksOfConds(connective, conds);
    NoMarksBefore(" WHERE ", CondsText(connective, conds));
  }

  /** The text of a clause has as many question marks as its conditions take arguments. */
  lemma MarksOfClause(text: string, clause: Clause)
    requires Reads(text, clause)
    ensures Marks(text) == Placeholders(clause.conds)
  {
    MarksOfWhere(clause.connective, clause.conds);
  }

  // ----- What a query does -----

  /** The database knows the column, and what a sub-select names. */
  ghost predicate IsKnown(c: Cond, columns: set<Col>) {
    c.col in columns && (c.InQuery? ==> IsLegal(c.query))
  }

  /** The database takes the query: it knows what the conditions name, and the arguments are as many as
      the question marks. */
  ghost predicate Accepted(text: string, args: seq<Arg>, columns: set<Col>) {
    exists clause ::
      Reads(text, clause) && Placeholders(clause.conds) == |args| && forall c | c in clause.conds :: IsKnown(c, columns)
  }

  lemma AcceptedHasMarks(text: string, args: seq<Arg>, columns: set<Col>)
    requires Accepted(text, args, columns)
    ensures Marks(text) == |args|
  {
    var clause :| Reads(text, clause) && Placeholders(clause.conds) == |args|;
    MarksOfClause(text, clause);
  }

  ghost predicate Selects(text: string, args: seq<Arg>, labels: set<LabelRow>, row: Row) {
    exists clause :: Reads(text, clause) && ClauseHolds(clause, args, labels, row)
  }
}
