/** The dynamic UPDATE statements of the list and item repositories: the `setValues`
    assignments and placeholder numbers they build, and what PostgreSQL makes of such a
    statement once its arguments are bound. */
module SetClause {
  import opened Errors
  import Decimal

  /** A Go value passed in `args`. */
  datatype Arg = Text(s: string) | Flag(b: bool) | Int(i: int)

  datatype Column = Title | Description | Done

  function ColumnName(c: Column): (name: string)
    ensures |name| > 0
  {
    match c
    case Title => "title"
    case Description => "description"
    case Done => "done"
  }

  /** One entry of `setValues`: `column=$param`. */
  datatype Assignment = Assignment(column: Column, param: int)

  /** `UPDATE ... SET <setValues> FROM ... WHERE ... <owner> = $ownerParam AND <id> = $idParam`. */
  datatype UpdateStmt = UpdateStmt(setValues: seq<Assignment>, ownerParam: int, idParam: int)

  /** `fmt.Sprintf("column=$%d", param)`. */
  function Render(a: Assignment): (s: string)
    ensures |s| > 0
  {
    ColumnName(a.column) + "=$" + Decimal.Itoa(a.param)
  }

  /** `strings.Join(setValues, ", ")`: empty exactly when no column is assigned, which leaves
      the statement reading `SET  FROM`. */
  function SetQuery(setValues: seq<Assignment>): (q: string)
    ensures q == "" <==> setValues == []
  {
    if setValues == [] then ""
    else if |setValues| == 1 then Render(setValues[0])
    else Render(setValues[0]) + ", " + SetQuery(setValues[1..])
  }

  /** The columns an UPDATE writes and their new values. */
  datatype Change = Change(title: Option<string>, description: Option<string>, done: Option<bool>)

  const NoChange: Change := Change(None, None, None)

  /** An UPDATE with every placeholder bound: the change, and the owner and row it is filtered by. */
  datatype Bound = Bound(change: Change, owner: int, id: int)

  /** The argument `$p` refers to. */
  function ArgAt(args: seq<Arg>, p: int): Option<Arg>
  {
    if 1 <= p <= |args| then Some(args[p - 1]) else None
  }

  /** Binds each assignment to its argument; a placeholder outside `args`, a value of the
      wrong type for its column, or a column assigned twice makes the statement fail. */
  function BindSet(setValues: seq<Assignment>, args: seq<Arg>): Option<Change>
  {
    if setValues == [] then Some(NoChange)
    else
      match BindSet(setValues[1..], args)
      case None => None
      case Some(c) =>
        match ArgAt(args, setValues[0].param)
        case None => None
        case Some(v) =>
          match setValues[0].column
          case Title => if v.Text? && c.title.None? then Some(c.(title := Some(v.s))) else None
          case Description => if v.Text? && c.description.None? then Some(c.(description := Some(v.s))) else None
          case Done => if v.Flag? && c.done.None? then Some(c.(done := Some(v.b))) else None
  }

  function MaxSetParam(setValues: seq<Assignment>): int
  {
    if setValues == [] then 0
    else var m := MaxSetParam(setValues[1..]); if setValues[0].param > m then setValues[0].param else m
  }

  /** The number of parameters PostgreSQL infers for the statement: its highest `$n`. */
  function ParamCount(stmt: UpdateStmt): int
  {
    var m := MaxSetParam(stmt.setValues);
    var n := if stmt.ownerParam > stmt.idParam then stmt.ownerParam else stmt.idParam;
    if m > n then m else n
  }

  /** Binding `args` to a statement with a non-empty SET clause: the argument count must be the
      statement's parameter count and the two WHERE parameters must be integers. */
  function Bind(stmt: UpdateStmt, args: seq<Arg>): (b: Option<Bound>)
    ensures b.Some? ==> |args| == ParamCount(stmt)
  {
    if |args| != ParamCount(stmt) then None
    else
      match (BindSet(stmt.setValues, args), ArgAt(args, stmt.ownerParam), ArgAt(args, stmt.idParam))
      case (Some(c), Some(Int(owner)), Some(Int(id))) => Some(Bound(c, owner, id))
      case _ => None
  }

  /** The argument assignment `a` names holds the value `c` gives its column. */
  predicate Fits(a: Assignment, args: seq<Arg>, c: Change)
  {
    && 1 <= a.param <= |args|
    && match a.column
       case Title => c.title.Some? && args[a.param - 1] == Text(c.title.value)
       case Description => c.description.Some? && args[a.param - 1] == Text(c.description.value)
       case Done => c.done.Some? && args[a.param - 1] == Flag(c.done.value)
  }

  predicate Assigns(setValues: seq<Assignment>, col: Column)
  {
    exists k :: 0 <= k < |setValues| && setValues[k].column == col
  }

  /** `setValues` assigns every column `c` changes, each once, from an argument holding its value. */
  predicate Denotes(setValues: seq<Assignment>, args: seq<Arg>, c: Change)
  {
    && (forall i, j :: 0 <= i < j < |setValues| ==> setValues[i].column != setValues[j].column)
    && (forall k :: 0 <= k < |setValues| ==> Fits(setValues[k], args, c))
    && (c.title.Some? ==> Assigns(setValues, Title))
    && (c.description.Some? ==> Assigns(setValues, Description))
    && (c.done.Some? ==> Assigns(setValues, Done))
  }

  function Unset(c: Change, col: Column): Change
  {
    match col
    case Title => c.(title := None)
    case Description => c.(description := None)
    case Done => c.(done := None)
  }

  /** Placeholders line up: a SET clause that denotes `c` binds to exactly `c`. */
  lemma {:induction false} BindSetDenoted(setValues: seq<Assignment>, args: seq<Arg>, c: Change)
    requires Denotes(setValues, args, c)
    ensures BindSet(setValues, args) == Some(c)
  {
    if setValues == [] {
    } else {
      var rest := setValues[1..];
      var c' := Unset(c, setValues[0].column);
      forall k | 0 <= k < |rest| ensures Fits(rest[k], args, c') {
        assert rest[k] == setValues[k + 1] && Fits(setValues[k + 1], args, c);
        assert setValues[0].column != setValues[k + 1].column;
      }
      forall col: Column | match col
                   case Title => c'.title.Some?
                   case Description => c'.description.Some?
                   case Done => c'.done.Some?
        ensures Assigns(rest, col)
      {
        var k :| 0 <= k < |setValues| && setValues[k].column == col;
        assert k != 0;
        assert rest[k - 1].column == col;
      }
      assert Denotes(rest, args, c');
      BindSetDenoted(rest, args, c');
      assert Fits(setValues[0], args, c);
    }
  }

  /** When the assignments are numbered `offset + 1, offset + 2, ...`, the highest is the last. */
  lemma {:induction false} MaxOfNumbered(setValues: seq<Assignment>, offset: int)
    requires offset >= 0
    requires forall k :: 0 <= k < |setValues| ==> setValues[k].param == offset + k + 1
    ensures MaxSetParam(setValues) == if setValues == [] then 0 else offset + |setValues|
  {
    if setValues != [] {
      MaxOfNumbered(setValues[1..], offset + 1);
    }
  }

  /** Binding a SET clause numbered `1 .. n` that denotes `c`, with the owner and id at
      `n + 1` and `n + 2`, yields `c` filtered by exactly that owner and id. */
  lemma BindBuilt(setValues: seq<Assignment>, args: seq<Arg>, c: Change, owner: int, id: int)
    requires forall k :: 0 <= k < |setValues| ==> setValues[k].param == k + 1
    requires |args| == |setValues| + 2
    requires args[|setValues|] == Int(owner) && args[|setValues| + 1] == Int(id)
    requires Denotes(setValues, args, c)
    ensures Bind(UpdateStmt(setValues, |setValues| + 1, |setValues| + 2), args) == Some(Bound(c, owner, id))
  {
    MaxOfNumbered(setValues, 0);
    BindSetDenoted(setValues, args, c);
  }

  /** The SET clause assigning `cols` in order, numbered `$1, $2, ...`. */
  function Numbering(cols: seq<Column>): (setValues: seq<Assignment>)
    ensures |setValues| == |cols|
    ensures forall k :: 0 <= k < |cols| ==> setValues[k] == Assignment(cols[k], k + 1)
  {
    seq(|cols|, k requires 0 <= k < |cols| => Assignment(cols[k], k + 1))
  }

  /** Appending a column to the list appends its assignment with the next number. */
  lemma NumberingAppend(cols: seq<Column>, col: Column)
    ensures Numbering(cols + [col]) == Numbering(cols) + [Assignment(col, |cols| + 1)]
  {
  }

  /** Two assignments join as `a, b`. */
  lemma SetQueryOfTwo(a: Assignment, b: Assignment)
    ensures SetQuery([a, b]) == Render(a) + ", " + Render(b)
  {
    assert [a, b][1..] == [b];
  }

  /** Three assignments join as `a, b, c`. */
  lemma SetQueryOfThree(a: Assignment, b: Assignment, c: Assignment)
    ensures SetQuery([a, b, c]) == Render(a) + ", " + (Render(b) + ", " + Render(c))
  {
    SetQueryOfTwo(b, c);
    assert [a, b, c][1..] == [b, c];
  }

  /** The assignments of a full update, rendered. */
  lemma RenderedAssignments()
    ensures Render(Assignment(Title, 1)) == "title=$1"
    ensures Render(Assignment(Description, 2)) == "description=$2"
    ensures Render(Assignment(Done, 3)) == "done=$3"
  {
    assert Decimal.Itoa(1) == "1" && Decimal.Itoa(2) == "2" && Decimal.Itoa(3) == "3";
  }
}
