/** The sub-selects inside a WHERE clause: chains of inner joins over a table of labels, their text, and
    the rows they yield (pkg/components/handler/database/aux_deployments_read.go). */
module SubSelects {
  import opened Prelude

  datatype Arg = Text(s: string) | Flag(b: bool)

  /** A row of `aux_dep_labels`; the value may be NULL. */
  datatype LabelRow = LabelRow(auxDepId: string, name: string, value: Option<string>)

  // ----- Text -----

  predicate IsWordChar(c: char) {
    'a' <= c <= 'z' || '0' <= c <= '9' || c == '_'
  }

  ghost predicate IsWord(s: string) {
    forall i | 0 <= i < |s| :: IsWordChar(s[i])
  }

  /** Nothing that continues a word. */
  ghost predicate Stops(s: string) {
    s == "" || !IsWordChar(s[0])
  }

  function Marks(s: string): nat {
    if s == "" then 0 else (if s[0] == '?' then 1 else 0) + Marks(s[1..])
  }

  function Decimal(n: nat): string {
    if n < 10 then ["0123456789"[n]] else Decimal(n / 10) + ["0123456789"[n % 10]]
  }

  lemma Cancel(p: string, x: string, y: string)
    requires p + x == p + y
    ensures x == y
  {
    assert x == (p + x)[|p|..] && y == (p + y)[|p|..];
  }

  lemma Regroup(a: string, b: string, c: string)
    ensures (a + b) + c == a + (b + c)
  {
  }

  lemma ShorterWord(a: string, b: string, x: string, y: string)
    requires IsWord(b) && Stops(x) && a + x == b + y
    ensures |b| <= |a|
  {
    var t := a + x;
    assert forall i | 0 <= i < |b| :: t[i] == b[i];
    assert x != "" ==> t[|a|] == x[0];
  }

  /** A word ends where the first other character is. */
  lemma SplitWord(a: string, b: string, x: string, y: string)
    requires IsWord(a) && IsWord(b) && Stops(x) && Stops(y) && a + x == b + y
    ensures a == b && x == y
  {
    ShorterWord(a, b, x, y);
    ShorterWord(b, a, y, x);
    assert a == (a + x)[..|a|] == b;
    Cancel(a, x, y);
  }

  lemma {:induction false} MarksConcat(a: string, b: string)
    ensures Marks(a + b) == Marks(a) + Marks(b)
  {
    if a == "" {
      assert a + b == b;
    } else {
      assert (a + b)[1..] == a[1..] + b;
      MarksConcat(a[1..], b);
    }
  }

  lemma {:induction false} NoMarks(s: string)
    requires '?' !in s
    ensures Marks(s) == 0
  {
    if s != "" {
      NoMarks(s[1..]);
    }
  }

  lemma NoMarksBefore(a: string, b: string)
    requires '?' !in a
    ensures Marks(a + b) == Marks(b)
  {
    NoMarks(a);
    MarksConcat(a, b);
  }

  lemma WordHasNoMarks(a: string)
    requires IsWord(a)
    ensures '?' !in a
  {
  }

  lemma {:induction false} DecimalIsWord(n: nat)
    ensures IsWord(Decimal(n)) && Decimal(n) != ""
  {
    if n >= 10 {
      DecimalIsWord(n / 10);
    }
  }

  lemma DigitsDiffer(a: nat, b: nat)
    requires a < 10 && b < 10 && "0123456789"[a] == "0123456789"[b]
    ensures a == b
  {
  }

  lemma {:induction false} DecimalsDiffer(n: nat, m: nat)
    requires Decimal(n) == Decimal(m)
    ensures n == m
  {
    DecimalIsWord(n / 10);
    DecimalIsWord(m / 10);
    if n < 10 || m < 10 {
      assert |Decimal(n)| == 1 <==> n < 10;
      assert |Decimal(m)| == 1 <==> m < 10;
      DigitsDiffer(n, m);
    } else {
      var x, y := Decimal(n / 10), Decimal(m / 10);
      var a, b := "0123456789"[n % 10], "0123456789"[m % 10];
      assert Decimal(n)[|Decimal(n)| - 1] == a && Decimal(m)[|Decimal(m)| - 1] == b;
      assert x == Decimal(n)[..|Decimal(n)| - 1] == y;
      DigitsDiffer(n % 10, m % 10);
      DecimalsDiffer(n / 10, m / 10);
    }
  }

  lemma SplitDecimal(n: nat, m: nat, x: string, y: string)
    requires Stops(x) && Stops(y) && Decimal(n) + x == Decimal(m) + y
    ensures n == m && x == y
  {
    DecimalIsWord(n);
    DecimalIsWord(m);
    SplitWord(Decimal(n), Decimal(m), x, y);
    DecimalsDiffer(n, m);
  }

  // ----- Syntax -----

  datatype Connective = And | Or

  datatype LabelCol = AuxDepId | LabelName | LabelValue

  /** `(SELECT column FROM table WHERE left = ? AND right = ?)`, or with OR. */
  datatype Select = Select(column: LabelCol, table: string, left: LabelCol, connective: Connective, right: LabelCol)

  /** `tL.c = tR.d` */
  datatype On = On(left: nat, leftCol: LabelCol, right: nat, rightCol: LabelCol)

  /** ` INNER JOIN (SELECT ..) tA ON ..` */
  datatype Link = Link(select: Select, alias: nat, on: On)

  /** `SELECT tS.* FROM (SELECT ..) tA` and the joins. */
  datatype Query = Query(star: nat, select: Select, alias: nat, links: seq<Link>)

  function Parts(q: Query): nat {
    1 + |q.links|
  }

  function LabelColName(col: LabelCol): string {
    match col
    case AuxDepId => "aux_dep_id"
    case LabelName => "name"
    case LabelValue => "value"
  }

  function ConnectiveText(c: Connective): string {
    match c
    case And => " AND "
    case Or => " OR "
  }

  function ComparesText(s: Select, rest: string): string {
    LabelColName(s.left) + (" = ?" + (ConnectiveText(s.connective) + (LabelColName(s.right) + (" = ?)" + rest))))
  }

  // Each text is written in front of what follows it.

  function SelectText(s: Select, rest: string): string {
    "(SELECT " + (LabelColName(s.column) + (" FROM " + (s.table + (" WHERE " + ComparesText(s, rest)))))
  }

  function OnRightText(on: On, rest: string): string {
    Decimal(on.right) + ("." + (LabelColName(on.rightCol) + rest))
  }

  function OnText(on: On, rest: string): string {
    "t" + (Decimal(on.left) + ("." + (LabelColName(on.leftCol) + (" = t" + OnRightText(on, rest)))))
  }

  function LinkEnd(link: Link, rest: string): string {
    " t" + (Decimal(link.alias) + (" ON " + OnText(link.on, rest)))
  }

  function LinkText(link: Link, rest: string): string {
    " INNER JOIN " + SelectText(link.select, LinkEnd(link, rest))
  }

  function LinksText(links: seq<Link>, rest: string): string {
    if links == [] then rest else LinkText(links[0], LinksText(links[1..], rest))
  }

  function QueryEnd(q: Query, rest: string): string {
    " t" + (Decimal(q.alias) + LinksText(q.links, rest))
  }

  function QueryText(q: Query, rest: string): string {
    "SELECT t" + (Decimal(q.star) + (".* FROM " + SelectText(q.select, QueryEnd(q, rest))))
  }

  /** Table names are words. */
  ghost predicate IsSelect(s: Select) {
    IsWord(s.table)
  }

  ghost predicate IsQuery(q: Query) {
    IsSelect(q.select) && forall i | 0 <= i < |q.links| :: IsSelect(q.links[i].select)
  }

  // ----- What follows may be written later -----

  lemma Nest3(a: string, b: string, c: string, d: string, more: string)
    ensures (a + (b + (c + d))) + more == a + (b + (c + (d + more)))
  {
  }

  lemma Nest5(a: string, b: string, c: string, d: string, e: string, f: string, more: string)
    ensures (a + (b + (c + (d + (e + f))))) + more == a + (b + (c + (d + (e + (f + more)))))
  {
  }

  lemma ComparesContinue(s: Select, rest: string, more: string)
    ensures ComparesText(s, rest) + more == ComparesText(s, rest + more)
  {
    Nest5(LabelColName(s.left), " = ?", ConnectiveText(s.connective), LabelColName(s.right), " = ?)", rest, more);
  }

  lemma SelectContinues(s: Select, rest: string, more: string)
    ensures SelectText(s, rest) + more == SelectText(s, rest + more)
  {
    ComparesContinue(s, rest, more);
    Nest5("(SELECT ", LabelColName(s.column), " FROM ", s.table, " WHERE ", ComparesText(s, rest), more);
  }

  lemma OnContinues(on: On, rest: string, more: string)
    ensures OnText(on, rest) + more == OnText(on, rest + more)
  {
    Nest3(Decimal(on.right), ".", LabelColName(on.rightCol), rest, more);
    Nest5("t", Decimal(on.left), ".", LabelColName(on.leftCol), " = t", OnRightText(on, rest), more);
  }

  lemma LinkContinues(link: Link, rest: string, more: string)
    ensures LinkText(link, rest) + more == LinkText(link, rest + more)
  {
    assert LinkEnd(link, rest) + more == LinkEnd(link, rest + more) by {
      OnContinues(link.on, rest, more);
      Nest3(" t", Decimal(link.alias), " ON ", OnText(link.on, rest), more);
    }
    SelectContinues(link.select, LinkEnd(link, rest), more);
    Regroup(" INNER JOIN ", SelectText(link.select, LinkEnd(link, rest)), more);
  }

  lemma {:induction false} LinksContinue(links: seq<Link>, rest: string, more: string)
    ensures LinksText(links, rest) + more == LinksText(links, rest + more)
  {
    if links != [] {
      LinksContinue(links[1..], rest, more);
      LinkContinues(links[0], LinksText(links[1..], rest), more);
    }
  }

  lemma QueryContinues(q: Query, rest: string, more: string)
    ensures QueryText(q, rest) + more == QueryText(q, rest + more)
  {
    assert QueryEnd(q, rest) + more == QueryEnd(q, rest + more) by {
      LinksContinue(q.links, rest, more);
      Regroup(Decimal(q.alias), LinksText(q.links, rest), more);
      Regroup(" t", Decimal(q.alias) + LinksText(q.links, rest), more);
    }
    SelectContinues(q.select, QueryEnd(q, rest), more);
    Nest3("SELECT t", Decimal(q.star), ".* FROM ", SelectText(q.select, QueryEnd(q, rest)), more);
  }

  // ----- A text has one reading -----

  lemma LabelColsAreWords(col: LabelCol)
    ensures IsWord(LabelColName(col))
  {
  }

  lemma LabelColsDiffer(a: LabelCol, b: LabelCol)
    requires LabelColName(a) == LabelColName(b)
    ensures a == b
  {
    assert |LabelColName(AuxDepId)| == 10 && |LabelColName(LabelName)| == 4 && |LabelColName(LabelValue)| == 5;
  }

  lemma SplitLabelCol(a: LabelCol, b: LabelCol, x: string, y: string)
    requires Stops(x) && Stops(y) && LabelColName(a) + x == LabelColName(b) + y
    ensures a == b && x == y
  {
    LabelColsAreWords(a);
    LabelColsAreWords(b);
    SplitWord(LabelColName(a), LabelColName(b), x, y);
    LabelColsDiffer(a, b);
  }

  lemma SplitConnective(a: Connective, b: Connective, x: string, y: string)
    requires ConnectiveText(a) + x == ConnectiveText(b) + y
    ensures a == b && x == y
  {
    assert (ConnectiveText(a) + x)[1] == if a.And? then 'A' else 'O';
    assert (ConnectiveText(b) + y)[1] == if b.And? then 'A' else 'O';
    Cancel(ConnectiveText(a), x, y);
  }

  lemma SameCompares(a: Select, b: Select, s: string, t: string)
    requires ComparesText(a, s) == ComparesText(b, t)
    ensures a.left == b.left && a.connective == b.connective && a.right == b.right && s == t
  {
    var x, y := LabelColName(a.right) + (" = ?)" + s), LabelColName(b.right) + (" = ?)" + t);
    SplitLabelCol(a.left, b.left, " = ?" + (ConnectiveText(a.connective) + x),
                  " = ?" + (ConnectiveText(b.connective) + y));
    Cancel(" = ?", ConnectiveText(a.connective) + x, ConnectiveText(b.connective) + y);
    SplitConnective(a.connective, b.connective, x, y);
    SplitLabelCol(a.right, b.right, " = ?)" + s, " = ?)" + t);
    Cancel(" = ?)", s, t);
  }

  lemma SameSelect(a: Select, b: Select, s: string, t: string)
    requires IsSelect(a) && IsSelect(b) && SelectText(a, s) == SelectText(b, t)
    ensures a == b && s == t
  {
    var x, y := " WHERE " + ComparesText(a, s), " WHERE " + ComparesText(b, t);
    Cancel("(SELECT ", LabelColName(a.column) + (" FROM " + (a.table + x)),
           LabelColName(b.column) + (" FROM " + (b.table + y)));
    SplitLabelCol(a.column, b.column, " FROM " + (a.table + x), " FROM " + (b.table + y));
    Cancel(" FROM ", a.table + x, b.table + y);
    SplitWord(a.table, b.table, x, y);
    Cancel(" WHERE ", ComparesText(a, s), ComparesText(b, t));
    SameCompares(a, b, s, t);
  }

  lemma SameOnRight(a: On, b: On, s: string, t: string)
    requires Stops(s) && Stops(t) && OnRightText(a, s) == OnRightText(b, t)
    ensures a.right == b.right && a.rightCol == b.rightCol && s == t
  {
    var x, y := LabelColName(a.rightCol) + s, LabelColName(b.rightCol) + t;
    SplitDecimal(a.right, b.right, "." + x, "." + y);
    Cancel(".", x, y);
    SplitLabelCol(a.rightCol, b.rightCol, s, t);
  }

  lemma SameOn(a: On, b: On, s: string, t: string)
    requires Stops(s) && Stops(t) && OnText(a, s) == OnText(b, t)
    ensures a == b && s == t
  {
    var x, y := " = t" + OnRightText(a, s), " = t" + OnRightText(b, t);
    Cancel("t", Decimal(a.left) + ("." + (LabelColName(a.leftCol) + x)),
           Decimal(b.left) + ("." + (LabelColName(b.leftCol) + y)));
    SplitDecimal(a.left, b.left, "." + (LabelColName(a.leftCol) + x), "." + (LabelColName(b.leftCol) + y));
    Cancel(".", LabelColName(a.leftCol) + x, LabelColName(b.leftCol) + y);
    SplitLabelCol(a.leftCol, b.leftCol, x, y);
    Cancel(" = t", OnRightText(a, s), OnRightText(b, t));
    SameOnRight(a, b, s, t);
  }

  lemma SameLink(a: Link, b: Link, s: string, t: string)
    requires IsSelect(a.select) && IsSelect(b.select) && Stops(s) && Stops(t) && LinkText(a, s) == LinkText(b, t)
    ensures a == b && s == t
  {
    var x, y := " ON " + OnText(a.on, s), " ON " + OnText(b.on, t);
    var u, v := " t" + (Decimal(a.alias) + x), " t" + (Decimal(b.alias) + y);
    Cancel(" INNER JOIN ", SelectText(a.select, u), SelectText(b.select, v));
    SameSelect(a.select, b.select, u, v);
    Cancel(" t", Decimal(a.alias) + x, Decimal(b.alias) + y);
    SplitDecimal(a.alias, b.alias, x, y);
    Cancel(" ON ", OnText(a.on, s), OnText(b.on, t));
    SameOn(a.on, b.on, s, t);
  }

  lemma LinksStart(links: seq<Link>, rest: string)
    ensures links != [] ==> |LinksText(links, rest)| > 0 && LinksText(links, rest)[0] == ' '
    ensures Stops(rest) ==> Stops(LinksText(links, rest))
  {
    if links != [] {
      assert LinkText(links[0], LinksText(links[1..], rest))[0] == ' ';
    }
  }

  lemma LinksUnfold(links: seq<Link>, rest: string)
    requires links != []
    ensures LinksText(links, rest) == LinkText(links[0], LinksText(links[1..], rest))
  {
  }

  lemma BothHaveLinks(a: seq<Link>, b: seq<Link>, s: string, t: string)
    requires |s| > 0 && s[0] == ')' && |t| > 0 && t[0] == ')' && LinksText(a, s) == LinksText(b, t)
    ensures a == [] <==> b == []
    ensures a == [] ==> s == t
  {
    LinksStart(a, s);
    LinksStart(b, t);
  }

  lemma SameFirstLink(a: seq<Link>, b: seq<Link>, s: string, t: string)
    requires a != [] && b != [] && IsSelect(a[0].select) && IsSelect(b[0].select)
    requires Stops(s) && Stops(t) && LinksText(a, s) == LinksText(b, t)
    ensures a[0] == b[0] && LinksText(a[1..], s) == LinksText(b[1..], t)
  {
    LinksUnfold(a, s);
    LinksUnfold(b, t);
    LinksStart(a[1..], s);
    LinksStart(b[1..], t);
    SameLink(a[0], b[0], LinksText(a[1..], s), LinksText(b[1..], t));
  }

  /** The links are a reading of the text, up to what follows. */
  ghost predicate ReadsLinks(text: string, links: seq<Link>, rest: string) {
    && (forall i | 0 <= i < |links| :: IsSelect(links[i].select))
    && |rest| > 0 && rest[0] == ')' && text == LinksText(links, rest)
  }

  lemma ReadsRest(text: string, links: seq<Link>, rest: string)
    requires ReadsLinks(text, links, rest) && links != []
    ensures IsSelect(links[0].select) && Stops(rest) && ReadsLinks(LinksText(links[1..], rest), links[1..], rest)
  {
  }

  lemma ReadsOneLess(text: string, a: seq<Link>, b: seq<Link>, s: string, t: string) returns (text': string)
    requires ReadsLinks(text, a, s) && ReadsLinks(text, b, t)
    ensures if a == [] then b == [] && s == t
            else b != [] && a[0] == b[0] && ReadsLinks(text', a[1..], s) && ReadsLinks(text', b[1..], t)
  {
    BothHaveLinks(a, b, s, t);
    text' := "";
    if a != [] {
      ReadsRest(text, a, s);
      ReadsRest(text, b, t);
      SameFirstLink(a, b, s, t);
      text' := LinksText(a[1..], s);
    }
  }

  lemma {:induction false} SameLinks(text: string, a: seq<Link>, b: seq<Link>, s: string, t: string)
    requires ReadsLinks(text, a, s) && ReadsLinks(text, b, t)
    ensures a == b && s == t
    decreases |a|
  {
    var text' := ReadsOneLess(text, a, b, s, t);
    if a != [] {
      SameLinks(text', a[1..], b[1..], s, t);
      assert a == [a[0]] + a[1..] && b == [b[0]] + b[1..];
    }
  }

  /** The text of a sub-select says what it compares, joins and yields: no two are written alike. */
  lemma SameQuery(a: Query, b: Query, s: string, t: string)
    requires IsQuery(a) && IsQuery(b) && QueryText(a, s) == QueryText(b, t)
    requires |s| > 0 && s[0] == ')' && |t| > 0 && t[0] == ')'
    ensures a == b && s == t
  {
    LinksStart(a.links, s);
    LinksStart(b.links, t);
    var x, y := LinksText(a.links, s), LinksText(b.links, t);
    var u, v := " t" + (Decimal(a.alias) + x), " t" + (Decimal(b.alias) + y);
    Cancel("SELECT t", Decimal(a.star) + (".* FROM " + SelectText(a.select, u)),
           Decimal(b.star) + (".* FROM " + SelectText(b.select, v)));
    SplitDecimal(a.star, b.star, ".* FROM " + SelectText(a.select, u), ".* FROM " + SelectText(b.select, v));
    Cancel(".* FROM ", SelectText(a.select, u), SelectText(b.select, v));
    SameSelect(a.select, b.select, u, v);
    Cancel(" t", Decimal(a.alias) + x, Decimal(b.alias) + y);
    SplitDecimal(a.alias, b.alias, x, y);
    SameLinks(x, a.links, b.links, s, t);
  }

  // ----- Two question marks for every sub-select -----

  lemma OneMark()
    ensures Marks(" = ?") == 1 && Marks(" = ?)") == 1
  {
    NoMarks(" = ");
    NoMarks(")");
    MarksConcat(" = ", "?");
    MarksConcat(" = ?", ")");
    assert " = ?" == " = " + "?" && " = ?)" == " = ?" + ")";
  }

  lemma MarksOfCompares(s: Select, rest: string)
    ensures Marks(ComparesText(s, rest)) == 2 + Marks(rest)
  {
    LabelColsAreWords(s.left);
    LabelColsAreWords(s.right);
    var end := LabelColName(s.right) + (" = ?)" + rest);
    NoMarksBefore(LabelColName(s.left), " = ?" + (ConnectiveText(s.connective) + end));
    MarksConcat(" = ?", ConnectiveText(s.connective) + end);
    NoMarksBefore(ConnectiveText(s.connective), end);
    NoMarksBefore(LabelColName(s.right), " = ?)" + rest);
    MarksConcat(" = ?)", rest);
    OneMark();
  }

  lemma MarksOfSelect(s: Select, rest: string)
    requires IsSelect(s)
    ensures Marks(SelectText(s, rest)) == 2 + Marks(rest)
  {
    LabelColsAreWords(s.column);
    WordHasNoMarks(s.table);
    var end := " WHERE " + ComparesText(s, rest);
    NoMarksBefore("(SELECT ", LabelColName(s.column) + (" FROM " + (s.table + end)));
    NoMarksBefore(LabelColName(s.column), " FROM " + (s.table + end));
    NoMarksBefore(" FROM ", s.table + end);
    NoMarksBefore(s.table, end);
    NoMarksBefore(" WHERE ", ComparesText(s, rest));
    MarksOfCompares(s, rest);
  }

  lemma MarksOfOn(on: On, rest: string)
    ensures Marks(OnText(on, rest)) == Marks(rest)
  {
    DecimalIsWord(on.left);
    DecimalIsWord(on.right);
    LabelColsAreWords(on.leftCol);
    LabelColsAreWords(on.rightCol);
    var end := " = t" + OnRightText(on, rest);
    NoMarksBefore("t", Decimal(on.left) + ("." + (LabelColName(on.leftCol) + end)));
    NoMarksBefore(Decimal(on.left), "." + (LabelColName(on.leftCol) + end));
    NoMarksBefore(".", LabelColName(on.leftCol) + end);
    NoMarksBefore(LabelColName(on.leftCol), end);
    NoMarksBefore(" = t", OnRightText(on, rest));
    NoMarksBefore(Decimal(on.right), "." + (LabelColName(on.rightCol) + rest));
    NoMarksBefore(".", LabelColName(on.rightCol) + rest);
    NoMarksBefore(LabelColName(on.rightCol), rest);
  }

  lemma MarksOfAlias(alias: nat, rest: string)
    ensures Marks(" t" + (Decimal(alias) + rest)) == Marks(rest)
  {
    DecimalIsWord(alias);
    NoMarksBefore(" t", Decimal(alias) + rest);
    NoMarksBefore(Decimal(alias), rest);
  }

  lemma MarksOfLink(link: Link, rest: string)
    requires IsSelect(link.select)
    ensures Marks(LinkText(link, rest)) == 2 + Marks(rest)
  {
    var end := " ON " + OnText(link.on, rest);
    NoMarksBefore(" INNER JOIN ", SelectText(link.select, " t" + (Decimal(link.alias) + end)));
    MarksOfSelect(link.select, " t" + (Decimal(link.alias) + end));
    MarksOfAlias(link.alias, end);
    NoMarksBefore(" ON ", OnText(link.on, rest));
    MarksOfOn(link.on, rest);
  }

  lemma {:induction false} MarksOfLinks(links: seq<Link>, rest: string)
    requires forall i | 0 <= i < |links| :: IsSelect(links[i].select)
    ensures Marks(LinksText(links, rest)) == 2 * |links| + Marks(rest)
  {
    if links != [] {
      MarksOfLink(links[0], LinksText(links[1..], rest));
      MarksOfLinks(links[1..], rest);
    }
  }

  lemma MarksOfStar(star: nat, rest: string)
    ensures Marks("SELECT t" + (Decimal(star) + (".* FROM " + rest))) == Marks(rest)
  {
    DecimalIsWord(star);
    NoMarksBefore("SELECT t", Decimal(star) + (".* FROM " + rest));
    NoMarksBefore(Decimal(star), ".* FROM " + rest);
    NoMarksBefore(".* FROM ", rest);
  }

  lemma MarksOfQuery(q: Query, rest: string)
    requires IsQuery(q)
    ensures Marks(QueryText(q, rest)) == 2 * Parts(q) + Marks(rest)
  {
    var links := LinksText(q.links, rest);
    var end := " t" + (Decimal(q.alias) + links);
    MarksOfStar(q.star, SelectText(q.select, end));
    MarksOfSelect(q.select, end);
    MarksOfAlias(q.alias, links);
    MarksOfLinks(q.links, rest);
  }

  // ----- The rows -----

  function ValueIn(row: LabelRow, col: LabelCol): Option<string> {
    match col
    case AuxDepId => Some(row.auxDepId)
    case LabelName => Some(row.name)
    case LabelValue => row.value
  }

  /** NULL equals nothing. */
  predicate ColumnIs(row: LabelRow, col: LabelCol, arg: Arg) {
    ValueIn(row, col).Some? && arg == Text(ValueIn(row, col).value)
  }

  predicate Matches(s: Select, a: Arg, b: Arg, row: LabelRow) {
    match s.connective
    case And => ColumnIs(row, s.left, a) && ColumnIs(row, s.right, b)
    case Or => ColumnIs(row, s.left, a) || ColumnIs(row, s.right, b)
  }

  const LABEL_TABLE := "aux_dep_labels"

  ghost function TableRows(table: string, labels: set<LabelRow>): set<LabelRow> {
    if table == LABEL_TABLE then labels else {}
  }

  function SelectAt(q: Query, i: nat): Select
    requires i < Parts(q)
  {
    if i == 0 then q.select else q.links[i - 1].select
  }

  ghost predicate IsAlias(q: Query, alias: nat, i: int) {
    0 <= i < Parts(q) && alias == if i == 0 then q.alias else q.links[i - 1].alias
  }

  /** The column is what the sub-select of this alias yields. */
  ghost predicate HasColumn(q: Query, alias: nat, col: LabelCol, i: int) {
    IsAlias(q, alias, i) && SelectAt(q, i).column == col
  }

  /** The alias is one of the first n sub-selects, which has the column. */
  ghost predicate IsNamed(q: Query, alias: nat, col: LabelCol, n: nat) {
    exists i :: i < n && HasColumn(q, alias, col, i)
  }

  /** The database knows the table, and every alias and column that the joins name. */
  ghost predicate IsLegal(q: Query) {
    && (forall i | 0 <= i < Parts(q) :: SelectAt(q, i).table == LABEL_TABLE)
    && (forall alias, i, j | IsAlias(q, alias, i) && IsAlias(q, alias, j) :: i == j)
    && (exists i :: IsAlias(q, q.star, i))
    && (forall k | 0 <= k < |q.links| ::
          && IsNamed(q, q.links[k].on.left, q.links[k].on.leftCol, k + 2)
          && IsNamed(q, q.links[k].on.right, q.links[k].on.rightCol, k + 2))
  }

  ghost predicate OnHolds(q: Query, tuple: seq<LabelRow>, on: On)
    requires |tuple| == Parts(q)
  {
    exists i, j :: HasColumn(q, on.left, on.leftCol, i) && HasColumn(q, on.right, on.rightCol, j)
                   && ValueIn(tuple[i], on.leftCol).Some?
                   && ValueIn(tuple[i], on.leftCol) == ValueIn(tuple[j], on.rightCol)
  }

  /** One row from each sub-select, which take their arguments one after the other, joined as told. */
  ghost predicate IsJoined(q: Query, tuple: seq<LabelRow>, args: seq<Arg>, labels: set<LabelRow>) {
    && |tuple| == Parts(q) && |args| == 2 * Parts(q)
    && (forall i | 0 <= i < Parts(q) ::
          tuple[i] in TableRows(SelectAt(q, i).table, labels)
          && Matches(SelectAt(q, i), args[2 * i], args[2 * i + 1], tuple[i]))
    && (forall k | 0 <= k < |q.links| :: OnHolds(q, tuple, q.links[k].on))
  }

  /** The query yields this value; it may be NULL. */
  ghost predicate Yields(q: Query, args: seq<Arg>, labels: set<LabelRow>, value: Option<string>) {
    exists tuple, i :: IsJoined(q, tuple, args, labels) && IsAlias(q, q.star, i)
                       && value == ValueIn(tuple[i], SelectAt(q, i).column)
  }
}
