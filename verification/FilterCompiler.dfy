/** Filters become the WHERE clause of a query, with a question mark for every argument
    (pkg/components/handler/database: aux_deployments_read.go, aux_deployments_delete.go,
    deployments_read.go, modules.go). */
module FilterCompiler {
  import opened Prelude
  import opened Slices
  import opened SubSelects
  import opened FilterText

  // ----- Adding conditions -----

  function Texts(conds: seq<Cond>): seq<string> {
    if conds == [] then [] else [CondText(conds[0], "")] + Texts(conds[1..])
  }

  function Join(fc: seq<string>, sep: string): string {
    if fc == [] then "" else if |fc| == 1 then fc[0] else fc[0] + sep + Join(fc[1..], sep)
  }

  function Where(fc: seq<string>): string {
    if |fc| > 0 then " WHERE " + Join(fc, " AND ") else ""
  }

  ghost predicate AllLegal(conds: seq<Cond>) {
    forall c | c in conds && c.InQuery? :: IsLegal(c.query)
  }

  /** The conditions have to hold all together. */
  ghost predicate HoldAll(conds: seq<Cond>, args: seq<Arg>, labels: set<LabelRow>, row: Row) {
    Holds(And, conds, args, labels, row)
  }

  /** `fc` and `val` as far as they are built, and the conditions they stand for. */
  ghost predicate Built(fc: seq<string>, val: seq<Arg>, conds: seq<Cond>) {
    && AllWellFormed(conds) && AllLegal(conds)
    && fc == Texts(conds)
    && Placeholders(conds) == |val|
  }

  lemma {:induction false} TextsOneMore(conds: seq<Cond>, c: Cond)
    ensures Texts(conds + [c]) == Texts(conds) + [CondText(c, "")]
    ensures Placeholders(conds + [c]) == Placeholders(conds) + Holes(c)
  {
    if conds == [] {
      assert conds + [c] == [c];
    } else {
      assert (conds + [c])[1..] == conds[1..] + [c];
      TextsOneMore(conds[1..], c);
    }
  }

  lemma {:induction false} HoldsOneMore(conds: seq<Cond>, val: seq<Arg>, c: Cond, new_: seq<Arg>, labels: set<LabelRow>,
                                        row: Row)
    requires Placeholders(conds) == |val| && |new_| == Holes(c)
    ensures HoldAll(conds + [c], val + new_, labels, row) <==>
              HoldAll(conds, val, labels, row) && CondHolds(c, new_, labels, row)
  {
    if conds == [] {
      assert conds + [c] == [c] && val + new_ == new_;
      assert new_[..Holes(c)] == new_;
      SingleHolds(And, [c], new_, labels, row);
    } else {
      var k := Holes(conds[0]);
      assert (conds + [c])[1..] == conds[1..] + [c] && (conds + [c])[0] == conds[0];
      assert (val + new_)[..k] == val[..k] && (val + new_)[k..] == val[k..] + new_;
      HoldsOneMore(conds[1..], val[k..], c, new_, labels, row);
    }
  }

  lemma BuiltOneMore(fc: seq<string>, val: seq<Arg>, conds: seq<Cond>, c: Cond, new_: seq<Arg>)
    requires Built(fc, val, conds) && WellFormed(c) && (c.InQuery? ==> IsLegal(c.query)) && |new_| == Holes(c)
    ensures Built(fc + [CondText(c, "")], val + new_, conds + [c])
    ensures forall labels, row :: HoldAll(conds + [c], val + new_, labels, row) <==>
              HoldAll(conds, val, labels, row) && CondHolds(c, new_, labels, row)
  {
    TextsOneMore(conds, c);
    forall labels, row
      ensures HoldAll(conds + [c], val + new_, labels, row) <==>
                HoldAll(conds, val, labels, row) && CondHolds(c, new_, labels, row)
    {
      HoldsOneMore(conds, val, c, new_, labels, row);
    }
  }

  /** No list at all, or one that has what stands in the column. */
  ghost predicate InList(ids: seq<string>, row: Row, col: Col) {
    ids == [] || (col in row && row[col].Text? && row[col].s in ids)
  }

  /** Below zero only false, above zero only true, zero both. */
  ghost predicate FlagIs(state: int, row: Row, col: Col) {
    state == 0 || (col in row && row[col] == Flag(state > 0))
  }

  ghost predicate TextIs(value: string, row: Row, col: Col) {
    value == "" || (col in row && row[col] == Text(value))
  }

  ghost function Args(ids: seq<string>): (args: seq<Arg>)
    ensures |args| == |ids|
  {
    seq(|ids|, i requires 0 <= i < |ids| => Text(ids[i]))
  }

  lemma ArgsOf(unique: seq<string>, ids: seq<string>, c: Cond, col: Col)
    requires Elements(unique) == Elements(ids) && ids != [] && c == In(col, false, |unique|)
    ensures forall labels, row :: CondHolds(c, Args(unique), labels, row) <==> InList(ids, row, col)
  {
    forall labels: set<LabelRow>, row: Row ensures CondHolds(c, Args(unique), labels, row) <==> InList(ids, row, col) {
      if InList(ids, row, col) {
        assert row[col].s in Elements(unique);
        var i :| 0 <= i < |unique| && unique[i] == row[col].s;
        assert Args(unique)[i] == row[col];
      }
      if CondHolds(c, Args(unique), labels, row) {
        var i :| 0 <= i < |unique| && Args(unique)[i] == row[col];
        assert unique[i] in Elements(unique) && unique[i] in Elements(ids);
      }
    }
  }

  lemma BracketText(name: string, inner: string)
    ensures name + (" " + ("IN (" + (inner + (")" + "")))) == name + " IN (" + inner + ")"
  {
  }

  lemma InText(col: Col, n: nat)
    ensures CondText(In(col, false, n), "") == ColName(col) + " IN (" + QuestionMarks(n) + ")"
  {
    BracketText(ColName(col), QuestionMarks(n));
  }

  ghost function Columns(conds: seq<Cond>): set<Col> {
    set c | c in conds :: c.col
  }

  lemma ColumnsOneMore(conds: seq<Cond>, c: Cond)
    ensures Columns(conds + [c]) == Columns(conds) + {c.col}
  {
    assert c in conds + [c];
    assert forall d :: d in conds + [c] <==> d in conds || d == c;
  }

  lemma InAdded(fc: seq<string>, val: seq<Arg>, conds: seq<Cond>, col: Col, ids: seq<string>, unique: seq<string>)
    requires Built(fc, val, conds) && ids != [] && unique != [] && Elements(unique) == Elements(ids)
    ensures var more := conds + [In(col, false, |unique|)];
            && Built(fc + [ColName(col) + " IN (" + QuestionMarks(|unique|) + ")"], val + Args(unique), more)
            && Columns(more) == Columns(conds) + {col}
            && forall labels, row :: HoldAll(more, val + Args(unique), labels, row) <==>
                 HoldAll(conds, val, labels, row) && InList(ids, row, col)
  {
    var c := In(col, false, |unique|);
    InText(col, |unique|);
    BuiltOneMore(fc, val, conds, c, Args(unique));
    ArgsOf(unique, ids, c, col);
    ColumnsOneMore(conds, c);
  }

  method AppendAll(val: seq<Arg>, ids: seq<string>) returns (val': seq<Arg>)
    ensures val' == val + Args(ids)
  {
    val' := val;
    for i := 0 to |ids|
      invariant val' == val + Args(ids[..i])
    {
      assert Args(ids[..i + 1]) == Args(ids[..i]) + [Text(ids[i])];
      val' := val' + [Text(ids[i])];
    }
    assert ids[..|ids|] == ids;
  }

  method AddIn(fc: seq<string>, val: seq<Arg>, ghost conds: seq<Cond>, ghost columns: set<Col>, col: Col,
               ids: seq<string>)
    returns (fc': seq<string>, val': seq<Arg>, ghost conds': seq<Cond>)
    requires Built(fc, val, conds) && Columns(conds) <= columns && (ids == [] || col in columns)
    ensures Built(fc', val', conds')
    ensures forall labels, row ::
                HoldAll(conds', val', labels, row) <==> HoldAll(conds, val, labels, row) && InList(ids, row, col)
    ensures Columns(conds) <= Columns(conds') <= columns && (ids == [] || col in Columns(conds'))
  {
    fc', val', conds' := fc, val, conds;
    if |ids| > 0 {
      var unique := RemoveDuplicates(ids);
      UniqueElements(ids);
      fc' := fc' + [ColName(col) + " IN (" + QuestionMarks(|unique|) + ")"];
      val' := AppendAll(val, unique);
      conds' := conds + [In(col, false, |unique|)];
      InAdded(fc, val, conds, col, ids, unique);
    }
  }

  lemma EqualsText(col: Col)
    ensures CondText(Compare(col, Eq), "") == ColName(col) + " = ?"
  {
  }

  method AddFlag(fc: seq<string>, val: seq<Arg>, ghost conds: seq<Cond>, ghost columns: set<Col>, col: Col, state: int)
    returns (fc': seq<string>, val': seq<Arg>, ghost conds': seq<Cond>)
    requires Built(fc, val, conds) && Columns(conds) <= columns && col in columns
    ensures Built(fc', val', conds')
    ensures forall labels, row ::
                HoldAll(conds', val', labels, row) <==> HoldAll(conds, val, labels, row) && FlagIs(state, row, col)
    ensures Columns(conds) <= Columns(conds') <= columns && (state == 0 || col in Columns(conds'))
  {
    fc', val', conds' := fc, val, conds;
    EqualsText(col);
    if state < 0 {
      fc', val' := fc' + [ColName(col) + " = ?"], val' + [Flag(false)];
      BuiltOneMore(fc, val, conds, Compare(col, Eq), [Flag(false)]);
      ColumnsOneMore(conds, Compare(col, Eq));
      conds' := conds + [Compare(col, Eq)];
    }
    if state > 0 {
      fc', val' := fc' + [ColName(col) + " = ?"], val' + [Flag(true)];
      BuiltOneMore(fc, val, conds, Compare(col, Eq), [Flag(true)]);
      ColumnsOneMore(conds, Compare(col, Eq));
      conds' := conds + [Compare(col, Eq)];
    }
  }

  method AddText(fc: seq<string>, val: seq<Arg>, ghost conds: seq<Cond>, ghost columns: set<Col>, col: Col,
                 value: string)
    returns (fc': seq<string>, val': seq<Arg>, ghost conds': seq<Cond>)
    requires Built(fc, val, conds) && Columns(conds) <= columns && col in columns
    ensures Built(fc', val', conds')
    ensures forall labels, row ::
                HoldAll(conds', val', labels, row) <==> HoldAll(conds, val, labels, row) && TextIs(value, row, col)
    ensures Columns(conds) <= Columns(conds') <= columns && (value == "" || col in Columns(conds'))
  {
    fc', val', conds' := fc, val, conds;
    if value != "" {
      EqualsText(col);
      fc', val' := fc' + [ColName(col) + " = ?"], val' + [Text(value)];
      BuiltOneMore(fc, val, conds, Compare(col, Eq), [Text(value)]);
      ColumnsOneMore(conds, Compare(col, Eq));
      conds' := conds + [Compare(col, Eq)];
    }
  }

  // ----- Labels -----

  /** The auxiliary deployment has every wanted label with the wanted value. */
  predicate HasLabels(labels: set<LabelRow>, auxDepId: string, wanted: map<string, string>) {
    forall n | n in wanted :: LabelRow(auxDepId, n, Some(wanted[n])) in labels
  }

  ghost predicate LabelsAre(wanted: map<string, string>, labels: set<LabelRow>, row: Row) {
    wanted == map[] || (Id in row && row[Id].Text? && HasLabels(labels, row[Id].s, wanted))
  }

  ghost predicate IsPairs(names: seq<string>, wanted: map<string, string>, args: seq<Arg>) {
    && |args| == 2 * |names|
    && forall i | 0 <= i < |names| ::
         names[i] in wanted && args[2 * i] == Text(names[i]) && args[2 * i + 1] == Text(wanted[names[i]])
  }

  const LABEL_SELECT := Select(AuxDepId, LABEL_TABLE, LabelName, And, LabelValue)

  function LabelLink(i: nat): Link
    requires i > 0
  {
    Link(LABEL_SELECT, i, On(i - 1, AuxDepId, i, AuxDepId))
  }

  function LabelLinks(n: nat): seq<Link> {
    seq(n, i requires 0 <= i < n => LabelLink(i + 1))
  }

  /** A sub-select for each of n labels, each joined to the one before by the id. */
  function LabelQuery(n: nat): Query
    requires n > 0
  {
    Query(0, LABEL_SELECT, 0, LabelLinks(n - 1))
  }

  lemma LabelParts(n: nat)
    requires n > 0
    ensures var q := LabelQuery(n);
            && Parts(q) == n && q.star == 0
            && (forall i | 0 <= i < n :: SelectAt(q, i) == LABEL_SELECT)
            && (forall alias, i :: IsAlias(q, alias, i) <==> alias == i && i < n)
            && (forall k | 0 <= k < n - 1 :: q.links[k].on == On(k, AuxDepId, k + 1, AuxDepId))
  {
  }

  lemma LabelTableIsWord()
    ensures IsWord(LABEL_TABLE)
  {
  }

  lemma LabelQueryIsLegal(n: nat)
    requires n > 0
    ensures IsQuery(LabelQuery(n)) && IsLegal(LabelQuery(n))
  {
    var q := LabelQuery(n);
    LabelParts(n);
    LabelTableIsWord();
    assert IsQuery(q) by {
      assert q.select == SelectAt(q, 0);
      forall i | 0 <= i < |q.links| ensures IsSelect(q.links[i].select) {
        assert q.links[i].select == SelectAt(q, i + 1);
      }
    }
    assert exists i :: IsAlias(q, q.star, i) by {
      assert IsAlias(q, q.star, 0);
    }
    forall alias, i, j | IsAlias(q, alias, i) && IsAlias(q, alias, j) ensures i == j {}
    forall k | 0 <= k < |q.links|
      ensures IsNamed(q, q.links[k].on.left, q.links[k].on.leftCol, k + 2)
      ensures IsNamed(q, q.links[k].on.right, q.links[k].on.rightCol, k + 2)
    {
      assert IsAlias(q, k, k) && IsAlias(q, k + 1, k + 1);
      assert HasColumn(q, k, AuxDepId, k) && HasColumn(q, k + 1, AuxDepId, k + 1);
    }
  }

  ghost predicate IsLabelOf(row: LabelRow, name: Arg, value: Arg, labels: set<LabelRow>) {
    row in labels && Text(row.name) == name && row.value.Some? && Text(row.value.value) == value
  }

  /** One label row for each pair of arguments, all of the same auxiliary deployment. */
  ghost predicate AreOfOne(tuple: seq<LabelRow>, args: seq<Arg>, labels: set<LabelRow>) {
    && 2 * |tuple| == |args|
    && (forall i | 0 <= i < |tuple| :: IsLabelOf(tuple[i], args[2 * i], args[2 * i + 1], labels))
    && (forall i | 0 < i < |tuple| :: tuple[i - 1].auxDepId == tuple[i].auxDepId)
  }

  lemma LabelsMatch(a: Arg, b: Arg, row: LabelRow)
    ensures Matches(LABEL_SELECT, a, b, row) <==>
            Text(row.name) == a && row.value.Some? && Text(row.value.value) == b
  {
  }

  lemma OnIsById(n: nat, tuple: seq<LabelRow>, k: nat)
    requires n > 0 && |tuple| == n && k + 1 < n
    ensures OnHolds(LabelQuery(n), tuple, LabelQuery(n).links[k].on) <==> tuple[k].auxDepId == tuple[k + 1].auxDepId
  {
    var q := LabelQuery(n);
    LabelParts(n);
    assert HasColumn(q, k, AuxDepId, k) && HasColumn(q, k + 1, AuxDepId, k + 1);
  }

  ghost predicate RowFits(q: Query, tuple: seq<LabelRow>, args: seq<Arg>, labels: set<LabelRow>, i: nat)
    requires i < Parts(q) && |tuple| == Parts(q) && |args| == 2 * Parts(q)
  {
    && tuple[i] in TableRows(SelectAt(q, i).table, labels)
    && Matches(SelectAt(q, i), args[2 * i], args[2 * i + 1], tuple[i])
  }

  ghost predicate AllJoined(q: Query, tuple: seq<LabelRow>)
    requires |tuple| == Parts(q)
  {
    forall k | 0 <= k < |q.links| :: OnHolds(q, tuple, q.links[k].on)
  }

  lemma RowsAreOfLabels(n: nat, tuple: seq<LabelRow>, args: seq<Arg>, labels: set<LabelRow>, i: nat)
    requires i < n && |tuple| == n && |args| == 2 * n
    ensures RowFits(LabelQuery(n), tuple, args, labels, i) <==>
            IsLabelOf(tuple[i], args[2 * i], args[2 * i + 1], labels)
  {
    LabelParts(n);
    LabelsMatch(args[2 * i], args[2 * i + 1], tuple[i]);
  }

  lemma AllOnAreById(n: nat, tuple: seq<LabelRow>)
    requires n > 0 && |tuple| == n
    ensures AllJoined(LabelQuery(n), tuple) <==> forall i | 0 < i < n :: tuple[i - 1].auxDepId == tuple[i].auxDepId
  {
    var q := LabelQuery(n);
    forall k | 0 <= k < n - 1
      ensures OnHolds(q, tuple, q.links[k].on) <==> tuple[k].auxDepId == tuple[k + 1].auxDepId
    {
      OnIsById(n, tuple, k);
    }
    if forall i | 0 < i < n :: tuple[i - 1].auxDepId == tuple[i].auxDepId {
      forall k | 0 <= k < n - 1 ensures OnHolds(q, tuple, q.links[k].on) {
        assert tuple[(k + 1) - 1].auxDepId == tuple[k + 1].auxDepId;
      }
    }
    if forall k | 0 <= k < n - 1 :: OnHolds(q, tuple, q.links[k].on) {
      forall i | 0 < i < n ensures tuple[i - 1].auxDepId == tuple[i].auxDepId {
        assert OnHolds(q, tuple, q.links[i - 1].on);
      }
    }
  }

  lemma JoinedIff(q: Query, tuple: seq<LabelRow>, args: seq<Arg>, labels: set<LabelRow>)
    requires |tuple| == Parts(q) && |args| == 2 * Parts(q)
    requires forall i | 0 <= i < |tuple| ::
               RowFits(q, tuple, args, labels, i) <==> IsLabelOf(tuple[i], args[2 * i], args[2 * i + 1], labels)
    requires AllJoined(q, tuple) <==> forall i | 0 < i < |tuple| :: tuple[i - 1].auxDepId == tuple[i].auxDepId
    ensures IsJoined(q, tuple, args, labels) <==> AreOfOne(tuple, args, labels)
  {
    assert IsJoined(q, tuple, args, labels) <==>
           (forall i | 0 <= i < Parts(q) :: RowFits(q, tuple, args, labels, i)) && AllJoined(q, tuple);
  }

  lemma JoinedAreOfOne(n: nat, tuple: seq<LabelRow>, args: seq<Arg>, labels: set<LabelRow>)
    requires n > 0
    ensures IsJoined(LabelQuery(n), tuple, args, labels) <==> |tuple| == n && AreOfOne(tuple, args, labels)
  {
    var q := LabelQuery(n);
    assert Parts(q) == n by { LabelParts(n); }
    if |tuple| == n && |args| == 2 * n {
      forall i | 0 <= i < n
        ensures RowFits(q, tuple, args, labels, i) <==> IsLabelOf(tuple[i], args[2 * i], args[2 * i + 1], labels)
      {
        RowsAreOfLabels(n, tuple, args, labels, i);
      }
      AllOnAreById(n, tuple);
      JoinedIff(q, tuple, args, labels);
    }
  }

  lemma {:induction false} JoinedShareTheId(tuple: seq<LabelRow>, args: seq<Arg>, labels: set<LabelRow>, i: nat)
    requires AreOfOne(tuple, args, labels) && i < |tuple|
    ensures tuple[i].auxDepId == tuple[0].auxDepId
  {
    if i > 0 {
      JoinedShareTheId(tuple, args, labels, i - 1);
    }
  }

  lemma LabelQueryYields(n: nat, args: seq<Arg>, labels: set<LabelRow>, value: Option<string>)
    requires n > 0
    ensures Yields(LabelQuery(n), args, labels, value) <==>
            exists tuple: seq<LabelRow> ::
              |tuple| == n && AreOfOne(tuple, args, labels) && value == Some(tuple[0].auxDepId)
  {
    var q := LabelQuery(n);
    LabelParts(n);
    if Yields(q, args, labels, value) {
      var tuple, i :| IsJoined(q, tuple, args, labels) && IsAlias(q, q.star, i)
                      && value == ValueIn(tuple[i], SelectAt(q, i).column);
      JoinedAreOfOne(n, tuple, args, labels);
    }
    if tuple: seq<LabelRow> :| |tuple| == n && AreOfOne(tuple, args, labels) && value == Some(tuple[0].auxDepId) {
      JoinedAreOfOne(n, tuple, args, labels);
      assert IsAlias(q, q.star, 0) && SelectAt(q, 0).column == AuxDepId;
      assert value == ValueIn(tuple[0], SelectAt(q, 0).column);
    }
  }

  ghost predicate FoundByLabels(n: nat, args: seq<Arg>, labels: set<LabelRow>, row: Row)
    requires n > 0
  {
    CondHolds(InQuery(Id, false, LabelQuery(n)), args, labels, row)
  }

  lemma ChainFindsAll(names: seq<string>, wanted: map<string, string>, args: seq<Arg>, labels: set<LabelRow>, row: Row)
    requires IsPairs(names, wanted, args) && Elements(names) == wanted.Keys && names != []
    requires FoundByLabels(|names|, args, labels, row)
    ensures LabelsAre(wanted, labels, row)
  {
    var v :| Yields(LabelQuery(|names|), args, labels, Some(v)) && row[Id] == Text(v);
    LabelQueryYields(|names|, args, labels, Some(v));
    var tuple: seq<LabelRow> :|
      |tuple| == |names| && AreOfOne(tuple, args, labels) && Some(v) == Some(tuple[0].auxDepId);
    forall n | n in wanted ensures LabelRow(v, n, Some(wanted[n])) in labels {
      assert n in Elements(names);
      var i :| 0 <= i < |names| && names[i] == n;
      JoinedShareTheId(tuple, args, labels, i);
      assert tuple[i] == LabelRow(v, n, Some(wanted[n]));
    }
  }

  lemma AllAreJoined(names: seq<string>, wanted: map<string, string>, args: seq<Arg>, labels: set<LabelRow>, row: Row)
    requires IsPairs(names, wanted, args) && names != [] && wanted != map[]
    requires LabelsAre(wanted, labels, row)
    ensures FoundByLabels(|names|, args, labels, row)
  {
    var tuple := seq(|names|, i requires 0 <= i < |names| => LabelRow(row[Id].s, names[i], Some(wanted[names[i]])));
    assert AreOfOne(tuple, args, labels);
    LabelQueryYields(|names|, args, labels, Some(row[Id].s));
  }

  /** The chain of joins finds an id if and only if all labels are there with their values, in whatever
      order the labels were taken. */
  lemma ChainMeansAllLabels(names: seq<string>, wanted: map<string, string>, args: seq<Arg>, labels: set<LabelRow>,
                            row: Row)
    requires IsPairs(names, wanted, args) && Elements(names) == wanted.Keys && wanted != map[] && names != []
    ensures CondHolds(InQuery(Id, false, LabelQuery(|names|)), args, labels, row) <==> LabelsAre(wanted, labels, row)
  {
    if FoundByLabels(|names|, args, labels, row) {
      ChainFindsAll(names, wanted, args, labels, row);
    }
    if LabelsAre(wanted, labels, row) {
      AllAreJoined(names, wanted, args, labels, row);
    }
  }

  // ----- The text of the sub-selects -----

  const LABELS := "(SELECT " + "aux_dep_id" + " FROM " + "aux_dep_labels" + " WHERE " + "name" + " = ?" + " AND "
                  + "value" + " = ?)"

  function OnIds(tc: nat): string
    requires tc > 0
  {
    " ON t" + Decimal(tc - 1) + ".aux_dep_id" + " = t" + Decimal(tc) + ".aux_dep_id"
  }

  /** What is written for the label at this place of the chain. */
  function LabelText(tc: nat): string {
    if tc == 0 then "SELECT t" + Decimal(tc) + ".* FROM " + LABELS + " t" + Decimal(tc)
    else " INNER JOIN " + LABELS + " t" + Decimal(tc) + OnIds(tc)
  }

  function Concat(part: nat -> string, n: nat): string {
    if n == 0 then "" else Concat(part, n - 1) + part(n - 1)
  }

  lemma Regroup10(a: string, b: string, c: string, d: string, e: string, f: string, g: string, h: string, i: string,
                  j: string, rest: string)
    ensures (a + b + c + d + e + f + g + h + i + j) + rest ==
            a + (b + (c + (d + (e + (f + (g + (h + (i + (j + rest)))))))))
  {
  }

  lemma LabelsText(rest: string)
    ensures LABELS + rest == SelectText(LABEL_SELECT, rest)
  {
    Regroup10("(SELECT ", "aux_dep_id", " FROM ", "aux_dep_labels", " WHERE ", "name", " = ?", " AND ", "value",
              " = ?)",
              rest);
  }

  lemma Regroup6(a: string, b: string, c: string, d: string, e: string, f: string, rest: string)
    ensures (a + b + c + d + e + f) + rest == a + (b + (c + (d + (e + (f + rest)))))
  {
  }

  lemma FirstText(links: seq<Link>, rest: string)
    ensures LabelText(0) + LinksText(links, rest) == QueryText(Query(0, LABEL_SELECT, 0, links), rest)
  {
    var end := " t" + (Decimal(0) + LinksText(links, rest));
    LabelsText(end);
    Regroup6("SELECT t", Decimal(0), ".* FROM ", LABELS, " t", Decimal(0), LinksText(links, rest));
  }

  lemma OnIdsText(tc: nat, rest: string)
    requires tc > 0
    ensures OnIds(tc) + rest == " ON " + OnText(On(tc - 1, AuxDepId, tc, AuxDepId), rest)
  {
    var left, right := Decimal(tc - 1), Decimal(tc);
    assert " ON t" == " ON " + "t" && ".aux_dep_id" == "." + "aux_dep_id";
    Regroup6(" ON t", left, ".aux_dep_id", " = t", right, ".aux_dep_id", rest);
    Regroup(" ON ", "t", left + (".aux_dep_id" + (" = t" + (right + (".aux_dep_id" + rest)))));
    Regroup(".", "aux_dep_id", " = t" + (right + (".aux_dep_id" + rest)));
    Regroup(".", "aux_dep_id", rest);
  }

  lemma Regroup4(a: string, b: string, c: string, d: string, e: string, rest: string)
    ensures (a + b + c + d + e) + rest == a + (b + (c + (d + (e + rest))))
  {
  }

  lemma NextText(tc: nat, rest: string)
    requires tc > 0
    ensures LabelText(tc) + rest == LinkText(LabelLink(tc), rest)
  {
    OnIdsText(tc, rest);
    LabelsText(" t" + (Decimal(tc) + (OnIds(tc) + rest)));
    Regroup4(" INNER JOIN ", LABELS, " t", Decimal(tc), OnIds(tc), rest);
  }

  lemma {:induction false} LinksOneMore(links: seq<Link>, link: Link, rest: string)
    ensures LinksText(links + [link], rest) == LinksText(links, LinkText(link, rest))
  {
    if links == [] {
      assert links + [link] == [link];
    } else {
      assert (links + [link])[1..] == links[1..] + [link];
      LinksOneMore(links[1..], link, rest);
    }
  }

  lemma OneLabelText(rest: string)
    ensures Concat(LabelText, 1) + rest == QueryText(LabelQuery(1), rest)
  {
    assert Concat(LabelText, 1) == LabelText(0);
    assert LabelLinks(0) == [];
    FirstText([], rest);
  }

  lemma QueryOneMore(links: seq<Link>, link: Link, rest: string)
    ensures QueryText(Query(0, LABEL_SELECT, 0, links + [link]), rest) ==
            QueryText(Query(0, LABEL_SELECT, 0, links), LinkText(link, rest))
  {
    LinksOneMore(links, link, rest);
  }

  lemma LabelQueryOneMore(n: nat, rest: string)
    requires n > 0
    ensures QueryText(LabelQuery(n + 1), rest) == QueryText(LabelQuery(n), LinkText(LabelLink(n), rest))
  {
    assert LabelLinks(n) == LabelLinks(n - 1) + [LabelLink(n)];
    QueryOneMore(LabelLinks(n - 1), LabelLink(n), rest);
  }

  /** What is written for n labels reads as that query. */
  lemma {:induction false} ChainText(n: nat, rest: string)
    requires n > 0
    ensures Concat(LabelText, n) + rest == QueryText(LabelQuery(n), rest)
  {
    if n == 1 {
      OneLabelText(rest);
    } else {
      var before, last := Concat(LabelText, n - 1), LabelText(n - 1);
      Regroup(before, last, rest);
      NextText(n - 1, rest);
      ChainText(n - 1, last + rest);
      LabelQueryOneMore(n - 1, rest);
    }
  }

  /** One sub-select for each label, joined to the one before; the map is ranged over in any order. */
  method LabelChain(link: nat -> string, val: seq<Arg>, wanted: map<string, string>)
    returns (str: string, val': seq<Arg>, ghost names: seq<string>, ghost args: seq<Arg>)
    ensures Elements(names) == wanted.Keys && IsPairs(names, wanted, args)
    ensures str == Concat(link, |names|) && val' == val + args
  {
    var tc := 0;
    str, val', names, args := "", val, [], [];
    var todo := wanted.Keys;
    while todo != {}
      invariant todo <= wanted.Keys && Elements(names) == wanted.Keys - todo
      invariant IsPairs(names, wanted, args) && val' == val + args
      invariant tc == |names| && str == Concat(link, tc)
    {
      var n :| n in todo;
      todo := todo - {n};
      val' := val' + [Text(n), Text(wanted[n])];
      args := args + [Text(n), Text(wanted[n])];
      assert Elements(names + [n]) == Elements(names) + {n};
      names := names + [n];
      str := if tc == 0 then link(tc) else str + link(tc);
      tc := tc + 1;
    }
    assert Elements(names) == wanted.Keys;
  }

  lemma LabelledText(n: nat)
    requires n > 0
    ensures CondText(InQuery(Id, false, LabelQuery(n)), "") == "id IN (" + Concat(LabelText, n) + ")"
  {
    ChainText(n, ")" + "");
    BracketText("id", Concat(LabelText, n));
    assert "id IN (" == "id" + " IN (";
  }

  lemma LabelsAdded(fc: seq<string>, val: seq<Arg>, conds: seq<Cond>, wanted: map<string, string>, names: seq<string>,
                    args: seq<Arg>)
    requires Built(fc, val, conds) && IsPairs(names, wanted, args) && Elements(names) == wanted.Keys && names != []
    ensures var more := conds + [InQuery(Id, false, LabelQuery(|names|))];
            && Built(fc + ["id IN (" + Concat(LabelText, |names|) + ")"], val + args, more)
            && Columns(more) == Columns(conds) + {Id}
            && forall labels, row :: HoldAll(more, val + args, labels, row) <==>
                 HoldAll(conds, val, labels, row) && LabelsAre(wanted, labels, row)
  {
    var c := InQuery(Id, false, LabelQuery(|names|));
    LabelQueryIsLegal(|names|);
    LabelParts(|names|);
    LabelledText(|names|);
    BuiltOneMore(fc, val, conds, c, args);
    ColumnsOneMore(conds, c);
    EmptyElements(names);
    forall labels, row ensures CondHolds(c, args, labels, row) <==> LabelsAre(wanted, labels, row) {
      ChainMeansAllLabels(names, wanted, args, labels, row);
    }
  }

  method AddLabels(fc: seq<string>, val: seq<Arg>, ghost conds: seq<Cond>, ghost columns: set<Col>,
                   wanted: map<string, string>)
    returns (fc': seq<string>, val': seq<Arg>, ghost conds': seq<Cond>)
    requires Built(fc, val, conds) && Columns(conds) <= columns && Id in columns
    ensures Built(fc', val', conds')
    ensures forall labels, row ::
                HoldAll(conds', val', labels, row) <==>
                  HoldAll(conds, val, labels, row) && LabelsAre(wanted, labels, row)
    ensures Columns(conds) <= Columns(conds') <= columns && (wanted == map[] || Id in Columns(conds'))
  {
    fc', val', conds' := fc, val, conds;
    if |wanted| > 0 {
      ghost var names, args;
      var str;
      str, val', names, args := LabelChain(LabelText, val, wanted);
      assert names != [] by {
        EmptyElements(names);
      }
      fc' := fc' + ["id IN (" + str + ")"];
      conds' := conds + [InQuery(Id, false, LabelQuery(|names|))];
      LabelsAdded(fc, val, conds, wanted, names, args);
    }
  }

  // ----- What a query selects -----

  lemma InnerContinues(c: Cond, rest: string, more: string)
    requires !c.Compare?
    ensures InnerText(c, rest) + more == InnerText(c, rest + more)
  {
    if c.In? {
      Regroup(QuestionMarks(c.n), rest, more);
    } else {
      QueryContinues(c.query, rest, more);
    }
  }

  lemma TestContinues(c: Cond, more: string)
    ensures TestText(c, "") + more == TestText(c, more)
  {
    if c.Compare? {
      Regroup(OpText(c.op), "", more);
      assert "" + more == more;
    } else {
      assert ")" + "" == ")";
      InnerContinues(c, ")", more);
      Regroup(InStart(c.negated), InnerText(c, ")"), more);
    }
  }

  lemma CondContinues(c: Cond, more: string)
    ensures CondText(c, "") + more == CondText(c, more)
  {
    TestContinues(c, more);
    Regroup(" ", TestText(c, ""), more);
    Regroup(ColName(c.col), " " + TestText(c, ""), more);
  }

  /** Joining the texts of the conditions with AND gives the text of the clause. */
  lemma {:induction false} JoinIsConds(conds: seq<Cond>)
    ensures Join(Texts(conds), " AND ") == CondsText(And, conds)
  {
    if conds != [] {
      JoinIsConds(conds[1..]);
      CondContinues(conds[0], Remaining(And, conds));
    }
  }

  lemma Compiled(fc: seq<string>, val: seq<Arg>, conds: seq<Cond>, columns: set<Col>)
    requires Built(fc, val, conds)
    ensures Marks(Where(fc)) == |val|
    ensures forall labels, row :: Selects(Where(fc), val, labels, row) <==> HoldAll(conds, val, labels, row)
    ensures Accepted(Where(fc), val, columns) <==> Columns(conds) <= columns
  {
    var text, clause := Where(fc), Clause(And, conds);
    JoinIsConds(conds);
    assert Reads(text, clause);
    MarksOfClause(text, clause);
    forall labels, row ensures Selects(text, val, labels, row) <==> HoldAll(conds, val, labels, row) {
      if Selects(text, val, labels, row) {
        var other :| Reads(text, other) && ClauseHolds(other, val, labels, row);
        OneMeaning(text, clause, other, val, labels, row);
      }
    }
    if Accepted(text, val, columns) {
      var other :| Reads(text, other) && Placeholders(other.conds) == |val|
                   && forall c | c in other.conds :: IsKnown(c, columns);
      OneReading(text, clause, other);
    }
    if Columns(conds) <= columns {
      forall c | c in conds ensures IsKnown(c, columns) {
        assert c.col in Columns(conds);
      }
    }
  }

  // ----- The filters -----

  datatype AuxFilter = AuxFilter(labels: map<string, string>, ids: seq<string>, enabled: int, recreate: int,
                                 image: string)

  datatype AuxDeployment = AuxDeployment(id: string, depId: string, image: string, enabled: bool, recreate: bool,
                                         container: string)

  const AUX_COLUMNS := {Id, DepId, Image, Enabled, Recreate}

  function AuxRow(d: AuxDeployment): (row: Row) {
    map[Id := Text(d.id), DepId := Text(d.depId), Image := Text(d.image), Enabled := Flag(d.enabled),
        Recreate := Flag(d.recreate)]
  }

  /** What the filter asks for; every part that is left at its zero value asks for nothing. */
  predicate AuxMatches(deploymentId: string, filter: AuxFilter, labels: set<LabelRow>, d: AuxDeployment) {
    && (deploymentId != "" ==> d.depId == deploymentId)
    && HasLabels(labels, d.id, filter.labels)
    && (filter.ids != [] ==> d.id in filter.ids)
    && (filter.enabled > 0 ==> d.enabled) && (filter.enabled < 0 ==> !d.enabled)
    && (filter.recreate > 0 ==> d.recreate) && (filter.recreate < 0 ==> !d.recreate)
    && (filter.image != "" ==> d.image == filter.image)
  }

  ghost predicate AuxRowMatches(deploymentId: string, filter: AuxFilter, labels: set<LabelRow>, row: Row) {
    && TextIs(deploymentId, row, DepId)
    && LabelsAre(filter.labels, labels, row)
    && InList(filter.ids, row, Id)
    && FlagIs(filter.enabled, row, Enabled)
    && FlagIs(filter.recreate, row, Recreate)
    && TextIs(filter.image, row, Image)
  }

  lemma AuxRowMeaning(deploymentId: string, filter: AuxFilter, labels: set<LabelRow>, d: AuxDeployment)
    ensures AuxRowMatches(deploymentId, filter, labels, AuxRow(d)) <==> AuxMatches(deploymentId, filter, labels, d)
  {
    var row := AuxRow(d);
    assert row[DepId] == Text(d.depId) && row[Id] == Text(d.id) && row[Image] == Text(d.image);
    assert row[Enabled] == Flag(d.enabled) && row[Recreate] == Flag(d.recreate);
  }

  method StartFilter() returns (fc: seq<string>, val: seq<Arg>, ghost conds: seq<Cond>)
    ensures Built(fc, val, conds) && Columns(conds) == {}
    ensures forall labels, row :: HoldAll(conds, val, labels, row)
  {
    fc, val, conds := [], [], [];
  }

  method AuxClause(deploymentId: string, filter: AuxFilter)
    returns (text: string, val: seq<Arg>, ghost conds: seq<Cond>)
    ensures Marks(text) == |val|
    ensures Accepted(text, val, AUX_COLUMNS)
    ensures forall labels, row :: Selects(text, val, labels, row) <==> AuxRowMatches(deploymentId, filter, labels, row)
  {
    var fc;
    fc, val, conds := StartFilter();
    fc, val, conds := AddText(fc, val, conds, AUX_COLUMNS, DepId, deploymentId);
    fc, val, conds := AddLabels(fc, val, conds, AUX_COLUMNS, filter.labels);
    fc, val, conds := AddIn(fc, val, conds, AUX_COLUMNS, Id, filter.ids);
    fc, val, conds := AddFlag(fc, val, conds, AUX_COLUMNS, Enabled, filter.enabled);
    fc, val, conds := AddFlag(fc, val, conds, AUX_COLUMNS, Recreate, filter.recreate);
    fc, val, conds := AddText(fc, val, conds, AUX_COLUMNS, Image, filter.image);
    Compiled(fc, val, conds, AUX_COLUMNS);
    text := Where(fc);
  }

  method GenAuxiliaryDeploymentsFilter(deploymentId: string, filter: AuxFilter) returns (text: string, val: seq<Arg>)
    ensures Marks(text) == |val|
    ensures Accepted(text, val, AUX_COLUMNS)
    ensures forall labels, d :: Selects(text, val, labels, AuxRow(d)) <==> AuxMatches(deploymentId, filter, labels, d)
  {
    ghost var conds;
    text, val, conds := AuxClause(deploymentId, filter);
    forall labels, d
      ensures Selects(text, val, labels, AuxRow(d)) <==> AuxMatches(deploymentId, filter, labels, d)
    {
      AuxRowMeaning(deploymentId, filter, labels, d);
    }
  }

  method IdsClause(ids: seq<string>) returns (text: string, val: seq<Arg>)
    ensures Marks(text) == |val|
    ensures Accepted(text, val, AUX_COLUMNS)
    ensures forall labels, row :: Selects(text, val, labels, row) <==> InList(ids, row, Id)
  {
    var fc;
    ghost var conds;
    fc, val, conds := StartFilter();
    fc, val, conds := AddIn(fc, val, conds, AUX_COLUMNS, Id, ids);
    Compiled(fc, val, conds, AUX_COLUMNS);
    text := Where(fc);
  }

  lemma IdOfAuxRow(d: AuxDeployment)
    ensures Id in AuxRow(d) && AuxRow(d)[Id] == Text(d.id)
  {
  }

  /** Used to delete: an empty list is no condition at all. */
  method GenAuxiliaryDeploymentsIdsFilter(ids: seq<string>) returns (text: string, val: seq<Arg>)
    ensures Marks(text) == |val|
    ensures Accepted(text, val, AUX_COLUMNS)
    ensures forall labels, d :: Selects(text, val, labels, AuxRow(d)) <==> ids == [] || d.id in ids
  {
    text, val := IdsClause(ids);
    forall labels: set<LabelRow>, d: AuxDeployment
      ensures Selects(text, val, labels, AuxRow(d)) <==> ids == [] || d.id in ids
    {
      IdOfAuxRow(d);
    }
  }

  const VOLUME_COLUMNS := {Id, DepId, Ref, Name}

  method GenAuxiliaryDeploymentVolumesFilter(deploymentId: string, references: seq<string>)
    returns (text: string, val: seq<Arg>)
    ensures Marks(text) == |val|
    ensures Accepted(text, val, VOLUME_COLUMNS)
    ensures forall labels, row :: Selects(text, val, labels, row) <==>
              TextIs(deploymentId, row, DepId) && InList(references, row, Ref)
  {
    var fc;
    ghost var conds;
    fc, val, conds := StartFilter();
    fc, val, conds := AddText(fc, val, conds, VOLUME_COLUMNS, DepId, deploymentId);
    fc, val, conds := AddIn(fc, val, conds, VOLUME_COLUMNS, Ref, references);
    Compiled(fc, val, conds, VOLUME_COLUMNS);
    text := Where(fc);
  }

  const DEPLOYMENT_COLUMNS := {Id, ModId, Enabled}

  method GenDeploymentsFilter(ids: seq<string>, moduleIds: seq<string>, enabled: int)
    returns (text: string, val: seq<Arg>)
    ensures Marks(text) == |val|
    ensures Accepted(text, val, DEPLOYMENT_COLUMNS)
    ensures forall labels, row :: Selects(text, val, labels, row) <==>
              InList(ids, row, Id) && InList(moduleIds, row, ModId) && FlagIs(enabled, row, Enabled)
  {
    var fc;
    ghost var conds;
    fc, val, conds := StartFilter();
    fc, val, conds := AddIn(fc, val, conds, DEPLOYMENT_COLUMNS, Id, ids);
    fc, val, conds := AddIn(fc, val, conds, DEPLOYMENT_COLUMNS, ModId, moduleIds);
    fc, val, conds := AddFlag(fc, val, conds, DEPLOYMENT_COLUMNS, Enabled, enabled);
    Compiled(fc, val, conds, DEPLOYMENT_COLUMNS);
    text := Where(fc);
  }

  const MODULE_COLUMNS := {Id, Source, Channel}

  method GenModulesFilter(ids: seq<string>, source: string, channel: string) returns (text: string, val: seq<Arg>)
    ensures Marks(text) == |val|
    ensures Accepted(text, val, MODULE_COLUMNS)
    ensures forall labels, row :: Selects(text, val, labels, row) <==>
              InList(ids, row, Id) && TextIs(source, row, Source) && TextIs(channel, row, Channel)
  {
    var fc;
    ghost var conds;
    fc, val, conds := StartFilter();
    fc, val, conds := AddIn(fc, val, conds, MODULE_COLUMNS, Id, ids);
    fc, val, conds := AddText(fc, val, conds, MODULE_COLUMNS, Source, source);
    fc, val, conds := AddText(fc, val, conds, MODULE_COLUMNS, Channel, channel);
    Compiled(fc, val, conds, MODULE_COLUMNS);
    text := Where(fc);
  }

  /** The id of a secret is in column `sec_id`; the filter asks for `res_id`. */
  const SECRET_COLUMNS := {DepId, Ref, SecId, AsMount, AsEnv}

  ghost predicate SecretMatches(ids: seq<string>, deploymentIds: seq<string>, asMount: int, asEnv: int, row: Row) {
    && InList(ids, row, ResId) && InList(deploymentIds, row, DepId)
    && FlagIs(asMount, row, AsMount) && FlagIs(asEnv, row, AsEnv)
  }

  ghost function SecretColumns(ids: seq<string>): set<Col> {
    SECRET_COLUMNS + if ids == [] then {} else {ResId}
  }

  method SecretsListClause(ids: seq<string>, deploymentIds: seq<string>)
    returns (fc: seq<string>, val: seq<Arg>, ghost conds: seq<Cond>)
    ensures Built(fc, val, conds)
    ensures Columns(conds) <= SecretColumns(ids) && (ids == [] || ResId in Columns(conds))
    ensures forall labels, row ::
                HoldAll(conds, val, labels, row) <==> InList(ids, row, ResId) && InList(deploymentIds, row, DepId)
  {
    fc, val, conds := StartFilter();
    fc, val, conds := AddIn(fc, val, conds, SecretColumns(ids), ResId, ids);
    fc, val, conds := AddIn(fc, val, conds, SecretColumns(ids), DepId, deploymentIds);
  }

  method SecretsClause(ids: seq<string>, deploymentIds: seq<string>, asMount: int, asEnv: int)
    returns (fc: seq<string>, val: seq<Arg>, ghost conds: seq<Cond>)
    ensures Built(fc, val, conds)
    ensures Columns(conds) <= SECRET_COLUMNS <==> ids == []
    ensures forall labels, row ::
                HoldAll(conds, val, labels, row) <==> SecretMatches(ids, deploymentIds, asMount, asEnv, row)
  {
    fc, val, conds := SecretsListClause(ids, deploymentIds);
    ghost var columns := SecretColumns(ids);
    fc, val, conds := AddFlag(fc, val, conds, columns, AsMount, asMount);
    fc, val, conds := AddFlag(fc, val, conds, columns, AsEnv, asEnv);
  }

  /** A filter by secret ids names a column the table does not have. Every other filter works. */
  method GenDeploymentsSecretsFilter(ids: seq<string>, deploymentIds: seq<string>, asMount: int, asEnv: int)
    returns (text: string, val: seq<Arg>)
    ensures Marks(text) == |val|
    ensures Accepted(text, val, SECRET_COLUMNS) <==> ids == []
    ensures forall labels, row ::
                Selects(text, val, labels, row) <==> SecretMatches(ids, deploymentIds, asMount, asEnv, row)
  {
    var fc;
    ghost var conds;
    fc, val, conds := SecretsClause(ids, deploymentIds, asMount, asEnv);
    Compiled(fc, val, conds, SECRET_COLUMNS);
    text := Where(fc);
  }
}
