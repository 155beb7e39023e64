/**
 * The `expressions` and `tasks` tables of the orchestrator (internal/database/database.go), held
 * in memory. Each database function is one atomic step on them: the transaction either commits
 * every write it made or leaves both tables as they were.
 */
module Database {
  import opened Wrappers
  import opened Model
  import Tokens
  import Decomposition

  // ---------------------------------------------------------------------------------------------
  // Rows and keys

  /** The primary key of `tasks`: no two rows share an id. */
  predicate UniqueIds(ts: seq<Task>)
  {
    forall j, k :: 0 <= j < k < |ts| ==> ts[j].id != ts[k].id
  }

  /** Same ids in the same places: updates that rewrite other columns keep the key intact. */
  predicate SameIds(a: seq<Task>, b: seq<Task>)
  {
    |a| == |b| && forall k :: 0 <= k < |a| ==> a[k].id == b[k].id
  }

  /** The first row whose id is `id`, as a single-row query reads it. */
  function IndexOf(ts: seq<Task>, id: string): (r: Option<nat>)
    ensures r.Some? ==> r.value < |ts| && ts[r.value].id == id
    ensures r.Some? ==> forall j :: 0 <= j < r.value ==> ts[j].id != id
    ensures r.None? <==> forall j :: 0 <= j < |ts| ==> ts[j].id != id
  {
    if ts == [] then None
    else if ts[0].id == id then Some(0)
    else match IndexOf(ts[1..], id)
      case None => None
      case Some(k) => Some(k + 1)
  }

  /** Rows that differ only outside the key are found at the same place. */
  lemma {:induction false} IndexOfSameIds(a: seq<Task>, b: seq<Task>, id: string)
    requires SameIds(a, b)
    ensures IndexOf(a, id) == IndexOf(b, id)
  {
    if a != [] {
      IndexOfSameIds(a[1..], b[1..], id);
    }
  }

  lemma UniqueIdsSameIds(a: seq<Task>, b: seq<Task>)
    requires UniqueIds(a) && SameIds(a, b)
    ensures UniqueIds(b)
  {
    forall j, k | 0 <= j < k < |b| ensures b[j].id != b[k].id {
      assert a[j].id != a[k].id;
    }
  }

  // ---------------------------------------------------------------------------------------------
  // Readiness (GetNextPendingTask)

  /**
   * The selection test of the dispatcher: no result yet, and neither argument matches
   * `GLOB '*[a-zA-Z]*'`, i.e. neither still names another task.
   */
  predicate Ready(t: Task)
  {
    t.result.None? && !HasLetter(t.arg1) && !HasLetter(t.arg2)
  }

  // ---------------------------------------------------------------------------------------------
  // Result cascade (UpdateTaskResult), one function per statement of the transaction

  /** Statement 1: the row with id `id` gets the result `v`; no other row changes. */
  function SetResult(ts: seq<Task>, id: string, v: Value): (r: seq<Task>)
    ensures SameIds(ts, r)
    ensures forall k :: 0 <= k < |ts| && ts[k].id == id ==> r[k].result == Some(v)
    ensures forall k :: 0 <= k < |ts| && ts[k].id != id ==> r[k] == ts[k]
    ensures forall k :: 0 <= k < |ts| ==> r[k] == ts[k].(result := r[k].result)
  {
    seq(|ts|, k requires 0 <= k < |ts| => if ts[k].id == id then ts[k].(result := Some(v)) else ts[k])
  }

  /** The rows statement 3 rewrites: unresolved tasks of expression `e` that name `id`. */
  predicate Dependent(t: Task, id: string, e: string)
  {
    t.expressionId == e && t.result.None? && (t.arg1 == id || t.arg2 == id)
  }

  function Replace(x: string, id: string, text: string): (r: string)
  {
    if x == id then text else x
  }

  /** Statement 3: in every dependent row, each argument equal to `id` becomes `text`. */
  function Substitute(ts: seq<Task>, id: string, text: string, e: string): (r: seq<Task>)
    ensures SameIds(ts, r)
  {
    seq(|ts|, k requires 0 <= k < |ts| =>
      if Dependent(ts[k], id, e)
      then ts[k].(arg1 := Replace(ts[k].arg1, id, text), arg2 := Replace(ts[k].arg2, id, text))
      else ts[k])
  }

  /** Statement 4: `SELECT COUNT(*) … WHERE expression_id = e AND result IS NULL`. */
  function PendingCount(ts: seq<Task>, e: string): (n: nat)
    ensures n <= |ts|
  {
    if ts == [] then 0
    else PendingCount(ts[..|ts| - 1], e) + (if ts[|ts| - 1].expressionId == e && ts[|ts| - 1].result.None? then 1 else 0)
  }

  /**
   * The rows the completion subquery may return: the result of every task that is the stored
   * root of its own expression, over all expressions (the subquery is not restricted to the
   * expression being completed; `LIMIT 1` returns one of them).
   */
  function Candidates(ts: seq<Task>, exprs: map<string, Expression>): (r: set<Option<Value>>)
  {
    set k | 0 <= k < |ts| && ts[k].expressionId in exprs && exprs[ts[k].expressionId].result == IdCell(ts[k].id)
      :: ts[k].result
  }

  /** Statement 5: the expression row once its last task has been resolved. */
  function Complete(x: Expression, w: Value): (r: Expression)
    ensures r.status == Completed && r.result == ValueCell(w)
    ensures r.id == x.id && r.text == x.text && r.userId == x.userId
  {
    x.(status := Completed, result := ValueCell(w))
  }

  /** The task table after statements 1 and 3 for a task of expression `e`. */
  function Cascade(ts: seq<Task>, id: string, v: Value, e: string): (r: seq<Task>)
    ensures SameIds(ts, r)
  {
    Substitute(SetResult(ts, id, v), id, Format(v), e)
  }

  // ---------------------------------------------------------------------------------------------
  // Batch insert (InsertTasks): statement text and bound arguments

  function DigitChar(d: nat): (c: char)
    requires d < 10
    ensures '0' <= c <= '9'
  {
    ('0' as int + d) as char
  }

  /** `%d`: the decimal numeral of `n`, without leading zeros. */
  function Decimal(n: nat): (s: string)
    ensures |s| > 0 && (forall k :: 0 <= k < |s| ==> '0' <= s[k] <= '9')
    ensures s[0] == '0' ==> n == 0
  {
    if n < 10 then [DigitChar(n)] else Decimal(n / 10) + [DigitChar(n % 10)]
  }

  /** Reading a numeral back: the independent partner of `Decimal`. */
  function DecimalValue(s: string): (n: nat)
    requires forall k :: 0 <= k < |s| ==> '0' <= s[k] <= '9'
  {
    if s == [] then 0 else DecimalValue(s[..|s| - 1]) * 10 + (s[|s| - 1] as int - '0' as int)
  }

  lemma {:induction false} DecimalRoundTrip(n: nat)
    ensures DecimalValue(Decimal(n)) == n
  {
    if n >= 10 {
      DecimalRoundTrip(n / 10);
      var s := Decimal(n);
      assert s[..|s| - 1] == Decimal(n / 10);
    }
  }

  const InsertHeader: string := "INSERT INTO tasks (id, arg1, arg2, operation, expression_id) VALUES "

  /**
   * SQLITE_MAX_VARIABLE_NUMBER of SQLite 3.32 and later: a statement with more host parameters is
   * refused with "too many SQL variables" before anything is inserted.
   */
  const MaxVariables: nat := 32766

  /** The placeholder `$j`. */
  function Slot(j: nat): (r: string)
  {
    "$" + Decimal(j)
  }

  /** The tuple of placeholders for row `i` of the batch: `($5i+1, $5i+2, $5i+3, $5i+4, $5i+5)`. */
  function Tuple(i: nat): (r: string)
    ensures |r| > 0 && r[0] == '('
  {
    "(" + Slot(i * 5 + 1) + ", " + Slot(i * 5 + 2) + ", " + Slot(i * 5 + 3)
      + ", " + Slot(i * 5 + 4) + ", " + Slot(i * 5 + 5) + ")"
  }

  /** The tuples of the first `n` rows, separated by `, `. */
  function TupleList(n: nat): (r: string)
  {
    if n == 0 then "" else TupleList(n - 1) + (if n > 1 then ", " else "") + Tuple(n - 1)
  }

  function InsertStatement(batch: seq<Task>): (r: string)
  {
    InsertHeader + TupleList(|batch|)
  }

  /** The five columns bound for one task, in the order of the column list. */
  function Columns(t: Task): (c: seq<string>)
    ensures |c| == 5
  {
    [t.id, t.arg1, t.arg2, t.operation, t.expressionId]
  }

  function InsertArgs(batch: seq<Task>): (r: seq<string>)
    ensures |r| == 5 * |batch|
  {
    if batch == [] then [] else InsertArgs(batch[..|batch| - 1]) + Columns(batch[|batch| - 1])
  }

  /** What the table holds for a batch once inserted: every column but the result. */
  function Stored(batch: seq<Task>): (r: seq<Task>)
    ensures |r| == |batch|
  {
    seq(|batch|, k requires 0 <= k < |batch| => batch[k].(result := None))
  }

  /** Placeholder `$(5i+c+1)` is bound to column `c` of row `i`. */
  lemma {:induction false} ArgsLayout(batch: seq<Task>, i: nat, c: nat)
    requires i < |batch| && c < 5
    ensures |InsertArgs(batch)| == 5 * |batch|
    ensures InsertArgs(batch)[i * 5 + c] == Columns(batch[i])[c]
  {
    var n := |batch|;
    var p := batch[..n - 1];
    if i < n - 1 {
      ArgsLayout(p, i, c);
      assert p[i] == batch[i];
    } else if n > 1 {
      ArgsLayout(p, 0, 0);
    }
  }

  // ---------------------------------------------------------------------------------------------
  // Binding: what the database reads from the statement

  /**
   * The numbers of the `$n` placeholders of a statement text, left to right. A `$` not followed
   * by a digit is not a placeholder; the digits after it are read greedily.
   */
  function Placeholders(s: string): (r: seq<nat>)
    ensures 2 * |r| <= |s|
    decreases |s|
  {
    if s == [] then []
    else
      var rest := s[1..];
      var n := if s[0] == '$' then Tokens.DigitRun(rest) else 0;
      (if n > 0 then [DecimalValue(rest[..n])] else []) + Placeholders(rest[n..])
  }

  /** The numbers `from`, `from + 1`, …, `count` of them. */
  function Consecutive(from: nat, count: nat): (r: seq<nat>)
    ensures |r| == count
    decreases count
  {
    if count == 0 then [] else [from] + Consecutive(from + 1, count - 1)
  }

  /**
   * The rows the database inserts for the placeholder numbers of the VALUES list: each tuple of
   * five values fills the five columns of one row, and `$j` takes the `j`-th argument. A tuple
   * that is short, or a placeholder with no argument, fails the statement.
   */
  function BindTuples(nums: seq<nat>, args: seq<string>): (r: Option<seq<Task>>)
    ensures r.Some? ==> 5 * |r.value| == |nums|
    ensures r.Some? ==> forall k :: 0 <= k < |r.value| ==> r.value[k].result == None
    decreases |nums|
  {
    if nums == [] then Some([])
    else if |nums| < 5 || !NamesArguments(nums[..5], args) then None
    else match BindTuples(nums[5..], args)
      case None => None
      case Some(rest) => Some([TupleRow(nums, args)] + rest)
  }

  /** Every placeholder names an argument that was passed. */
  predicate NamesArguments(nums: seq<nat>, args: seq<string>)
  {
    forall c :: 0 <= c < |nums| ==> 1 <= nums[c] <= |args|
  }

  /** The row built from the first tuple's five values, in column order; `result` is not inserted. */
  function TupleRow(nums: seq<nat>, args: seq<string>): (t: Task)
    requires |nums| >= 5 && NamesArguments(nums[..5], args)
  {
    assert forall c :: 0 <= c < 5 ==> nums[..5][c] == nums[c];
    Task(args[nums[0] - 1], args[nums[1] - 1], args[nums[2] - 1], args[nums[3] - 1], None, args[nums[4] - 1])
  }

  /** Placeholders of a concatenation, when the cut does not split a run of digits. */
  lemma {:induction false} PlaceholdersAppend(x: string, y: string)
    requires y == [] || !Tokens.IsDigit(y[0])
    ensures Placeholders(x + y) == Placeholders(x) + Placeholders(y)
    decreases |x|
  {
    if x == [] {
      assert x + y == y;
    } else {
      var n := if x[0] == '$' then Tokens.DigitRun(x[1..]) else 0;
      PlaceholdersAppend(x[1..][n..], y);
      PlaceholderStep(x, y, n);
    }
  }

  /** One step of `PlaceholdersAppend`: the first character or placeholder of `x` is read alike in `x + y`. */
  lemma PlaceholderStep(x: string, y: string, n: nat)
    requires x != [] && n == (if x[0] == '$' then Tokens.DigitRun(x[1..]) else 0)
    requires y == [] || !Tokens.IsDigit(y[0])
    requires Placeholders(x[1..][n..] + y) == Placeholders(x[1..][n..]) + Placeholders(y)
    ensures Placeholders(x + y) == Placeholders(x) + Placeholders(y)
  {
    var h, tail := HeadUnfolds(x, y, n);
    Regroup(Placeholders(x + y), Placeholders(x), h, Placeholders(tail + y), Placeholders(tail), Placeholders(y));
  }

  /** The first step of the reader on `x + y` and on `x`: the same head `h`, then the same tail of `x`. */
  lemma HeadUnfolds(x: string, y: string, n: nat) returns (h: seq<nat>, tail: string)
    requires x != [] && n == (if x[0] == '$' then Tokens.DigitRun(x[1..]) else 0)
    requires y == [] || !Tokens.IsDigit(y[0])
    ensures n <= |x[1..]| && tail == x[1..][n..]
    ensures Placeholders(x + y) == h + Placeholders(tail + y)
    ensures Placeholders(x) == h + Placeholders(tail)
  {
    var rest := x[1..];
    h := if n > 0 then [DecimalValue(rest[..n])] else [];
    tail := rest[n..];
    Tokens.SliceAppend(x, y, 1);
    if x[0] == '$' {
      Tokens.DigitRunAppend(rest, y);
    }
    if n > 0 {
      Tokens.SliceAppend(rest, y, n);
    } else {
      assert rest[0..] == rest && (rest + y)[0..] == rest + y;
    }
  }

  lemma NumbersAssoc(u: seq<nat>, v: seq<nat>, w: seq<nat>)
    ensures u + (v + w) == (u + v) + w
  {
  }

  /** Reassociation of the head of a read with the rest of it, on abstract number sequences. */
  lemma Regroup(whole: seq<nat>, left: seq<nat>, h: seq<nat>, rest: seq<nat>, restLeft: seq<nat>, right: seq<nat>)
    requires whole == h + rest && left == h + restLeft && rest == restLeft + right
    ensures whole == left + right
  {
    assert h + (restLeft + right) == (h + restLeft) + right;
  }

  lemma SlotNumber(j: nat)
    ensures Placeholders(Slot(j)) == [j]
  {
    var s, d := Slot(j), Decimal(j);
    assert s[1..] == d;
    assert Tokens.DigitRun(d) == |d|;
    assert d[..|d|] == d && d[|d|..] == [];
    DecimalRoundTrip(j);
  }

  lemma NoPlaceholders(s: string)
    requires s == "(" || s == ", " || s == ")" || s == ""
    ensures Placeholders(s) == []
  {
    if s != "" {
      var t := s[1..];
      assert s[0] != '$' && t[0..] == t;
      if s == ", " {
        assert t == " " && t[0] != '$' && t[1..] == [] && t[1..][0..] == [];
        assert Placeholders(t) == [];
      } else {
        assert t == [];
      }
    }
  }

  /** Tuple `i` names the placeholders `$5i+1` … `$5i+5`, in that order. */
  lemma TupleNumbers(i: nat)
    ensures Placeholders(Tuple(i)) == Consecutive(i * 5 + 1, 5)
  {
    TupleSlots(i);
    ConsecutiveFive(i * 5 + 1);
  }

  lemma TupleSlots(i: nat)
    ensures Placeholders(Tuple(i)) == [i * 5 + 1, i * 5 + 2, i * 5 + 3, i * 5 + 4, i * 5 + 5]
  {
    var j := i * 5;
    var t := "(" + Slot(j + 1) + ", " + Slot(j + 2) + ", " + Slot(j + 3) + ", " + Slot(j + 4) + ", " + Slot(j + 5);
    FiveSlots(j);
    NoPlaceholders(")");
    PlaceholdersAppend(t, ")");
    assert Tuple(i) == t + ")";
  }

  lemma FiveSlots(j: nat)
    ensures Placeholders("(" + Slot(j + 1) + ", " + Slot(j + 2) + ", " + Slot(j + 3) + ", " + Slot(j + 4) + ", " + Slot(j + 5))
      == [j + 1, j + 2, j + 3, j + 4, j + 5]
  {
    var t := "(" + Slot(j + 1) + ", " + Slot(j + 2) + ", " + Slot(j + 3);
    ThreeSlots(j);
    SlotAfter(t, j + 4);
    SlotAfter(t + ", " + Slot(j + 4), j + 5);
  }

  lemma ThreeSlots(j: nat)
    ensures Placeholders("(" + Slot(j + 1) + ", " + Slot(j + 2) + ", " + Slot(j + 3)) == [j + 1, j + 2, j + 3]
  {
    NoPlaceholders("(");
    SlotNumber(j + 1);
    PlaceholdersAppend("(", Slot(j + 1));
    SlotAfter("(" + Slot(j + 1), j + 2);
    SlotAfter("(" + Slot(j + 1) + ", " + Slot(j + 2), j + 3);
  }

  /** A further `, $j` adds `j` to the numbers read so far. */
  lemma SlotAfter(x: string, j: nat)
    ensures Placeholders(x + ", " + Slot(j)) == Placeholders(x) + [j]
  {
    NoPlaceholders(", ");
    SlotNumber(j);
    PlaceholdersAppend(x, ", ");
    PlaceholdersAppend(x + ", ", Slot(j));
  }

  /**
   * The VALUES list of `n` rows numbers its placeholders `$1` … `$5n`, each once and in order, so
   * binding `$j` to the `j`-th argument and binding the arguments in order agree.
   */
  lemma {:induction false} TupleListNumbers(n: nat)
    ensures Placeholders(TupleList(n)) == Consecutive(1, 5 * n)
  {
    if n > 0 {
      var m := n - 1;
      TupleListNumbers(m);
      TupleNumbers(m);
      NoPlaceholders(if m > 0 then ", " else "");
      TupleListSnoc(m);
      NumbersStep(TupleList(m), if m > 0 then ", " else "", Tuple(m), m);
    } else {
      assert Consecutive(1, 0) == [];
    }
  }

  lemma NumbersStep(prev: string, sep: string, t: string, m: nat)
    requires Placeholders(prev) == Consecutive(1, 5 * m)
    requires Placeholders(sep) == [] && (sep == [] || !Tokens.IsDigit(sep[0]))
    requires Placeholders(t) == Consecutive(m * 5 + 1, 5) && t != [] && t[0] == '('
    ensures Placeholders(prev + sep + t) == Consecutive(1, 5 * (m + 1))
  {
    AppendThree(prev, sep, t);
    JoinNumbers(Placeholders(prev), Placeholders(sep), Placeholders(t), m);
  }

  lemma AppendThree(prev: string, sep: string, t: string)
    requires (sep == [] || !Tokens.IsDigit(sep[0])) && t != [] && t[0] == '('
    ensures Placeholders(prev + sep + t) == Placeholders(prev) + Placeholders(sep) + Placeholders(t)
  {
    PlaceholdersAppend(prev, sep);
    PlaceholdersAppend(prev + sep, t);
  }

  lemma JoinNumbers(p: seq<nat>, q: seq<nat>, r: seq<nat>, m: nat)
    requires p == Consecutive(1, 5 * m) && q == [] && r == Consecutive(m * 5 + 1, 5)
    ensures p + q + r == Consecutive(1, 5 * (m + 1))
  {
    ConsecutiveSplit(1, 5 * m, 5);
    assert p + q == p;
  }

  lemma ConsecutiveFive(from: nat)
    ensures Consecutive(from, 5) == [from, from + 1, from + 2, from + 3, from + 4]
  {
    assert Consecutive(from + 4, 1) == [from + 4];
    assert Consecutive(from + 3, 2) == [from + 3, from + 4];
    assert Consecutive(from + 2, 3) == [from + 2, from + 3, from + 4];
    assert Consecutive(from + 1, 4) == [from + 1, from + 2, from + 3, from + 4];
  }

  lemma {:induction false} ConsecutiveSplit(from: nat, a: nat, b: nat)
    ensures Consecutive(from, a + b) == Consecutive(from, a) + Consecutive(from + a, b)
    decreases a
  {
    if a > 0 {
      ConsecutiveSplit(from + 1, a - 1, b);
      NumbersAssoc([from], Consecutive(from + 1, a - 1), Consecutive(from + 1 + (a - 1), b));
    } else {
      assert Consecutive(from, a) + Consecutive(from + a, b) == Consecutive(from + a, b);
    }
  }

  /** Binding placeholders `$5i+1` … `$5n` inserts the rows of the batch from the `i`-th on. */
  lemma {:induction false} BindFrom(batch: seq<Task>, i: nat)
    requires i <= |batch|
    ensures BindTuples(Consecutive(i * 5 + 1, 5 * (|batch| - i)), InsertArgs(batch)) == Some(Stored(batch)[i..])
    decreases |batch| - i
  {
    if i < |batch| {
      BindFrom(batch, i + 1);
      TupleColumns(batch, i);
      StoredFrom(batch, i);
      BindStep(InsertArgs(batch), batch[i], Stored(batch)[i + 1..], i, 5 * (|batch| - i));
    } else {
      assert Stored(batch)[i..] == [];
    }
  }

  /** The first tuple names the five columns of `t`; the rest bind to `rest`. */
  lemma BindStep(args: seq<string>, t: Task, rest: seq<Task>, i: nat, count: nat)
    requires count >= 5
    requires i * 5 + 5 <= |args| && args[i * 5..i * 5 + 5] == Columns(t)
    requires BindTuples(Consecutive(i * 5 + 6, count - 5), args) == Some(rest)
    ensures BindTuples(Consecutive(i * 5 + 1, count), args) == Some([t.(result := None)] + rest)
  {
    ConsecutiveParts(i * 5 + 1, count);
    FirstTupleRow(Consecutive(i * 5 + 1, count), args, t, i * 5);
    BindHead(Consecutive(i * 5 + 1, count), args, t, rest);
  }

  lemma ConsecutiveParts(from: nat, count: nat)
    requires count >= 5
    ensures Consecutive(from, count)[..5] == [from, from + 1, from + 2, from + 3, from + 4]
    ensures Consecutive(from, count)[5..] == Consecutive(from + 5, count - 5)
  {
    ConsecutiveSplit(from, 5, count - 5);
    ConsecutiveFive(from);
    HeadAndTail(Consecutive(from, 5), Consecutive(from + 5, count - 5));
  }

  lemma HeadAndTail(head: seq<nat>, tail: seq<nat>)
    requires |head| == 5
    ensures (head + tail)[..5] == head && (head + tail)[5..] == tail
  {
  }

  lemma BindHead(nums: seq<nat>, args: seq<string>, t: Task, rest: seq<Task>)
    requires |nums| >= 5 && NamesArguments(nums[..5], args) && TupleRow(nums, args) == t.(result := None)
    requires BindTuples(nums[5..], args) == Some(rest)
    ensures BindTuples(nums, args) == Some([t.(result := None)] + rest)
  {
  }

  lemma FirstTupleRow(nums: seq<nat>, args: seq<string>, t: Task, j: nat)
    requires |nums| >= 5 && nums[..5] == [j + 1, j + 2, j + 3, j + 4, j + 5]
    requires j + 5 <= |args| && args[j..j + 5] == Columns(t)
    ensures NamesArguments(nums[..5], args) && TupleRow(nums, args) == t.(result := None)
  {
    var a, h := args[j..j + 5], nums[..5];
    assert args[j] == a[0] && args[j + 1] == a[1] && args[j + 2] == a[2] && args[j + 3] == a[3] && args[j + 4] == a[4];
    assert nums[0] == h[0] && nums[1] == h[1] && nums[2] == h[2] && nums[3] == h[3] && nums[4] == h[4];
  }

  /** Arguments `5i+1` … `5i+5` are the columns of task `i`. */
  lemma TupleColumns(batch: seq<Task>, i: nat)
    requires i < |batch|
    ensures i * 5 + 5 <= |InsertArgs(batch)| && InsertArgs(batch)[i * 5..i * 5 + 5] == Columns(batch[i])
  {
    ArgsLayout(batch, i, 0);
    ArgsLayout(batch, i, 1);
    ArgsLayout(batch, i, 2);
    ArgsLayout(batch, i, 3);
    ArgsLayout(batch, i, 4);
    var a := InsertArgs(batch)[i * 5..i * 5 + 5];
    assert a[0] == InsertArgs(batch)[i * 5 + 0] && a[1] == InsertArgs(batch)[i * 5 + 1] && a[2] == InsertArgs(batch)[i * 5 + 2];
    assert a[3] == InsertArgs(batch)[i * 5 + 3] && a[4] == InsertArgs(batch)[i * 5 + 4];
  }

  lemma StoredFrom(batch: seq<Task>, i: nat)
    requires i < |batch|
    ensures Stored(batch)[i..] == [batch[i].(result := None)] + Stored(batch)[i + 1..]
  {
  }

  /**
   * The database reads back exactly the batch from the statement and its arguments: every row in
   * batch order, each column from its own task, and a NULL result.
   */
  lemma StatementRoundTrip(batch: seq<Task>)
    ensures BindTuples(Placeholders(TupleList(|batch|)), InsertArgs(batch)) == Some(Stored(batch))
  {
    TupleListNumbers(|batch|);
    BindFrom(batch, 0);
    assert Stored(batch)[0..] == Stored(batch);
  }

  /**
   * The rows the multi-row INSERT adds: the statement and its arguments are built, and the
   * database binds each placeholder of the VALUES list to the argument it names.
   */
  method InsertedRows(batch: seq<Task>) returns (rows: seq<Task>)
    ensures rows == Stored(batch)
  {
    var query, args := BuildInsertTasks(batch);
    assert query[|InsertHeader|..] == TupleList(|batch|);
    StatementRoundTrip(batch);
    var bound := BindTuples(Placeholders(query[|InsertHeader|..]), args);
    rows := bound.value;
  }

  lemma TupleListSnoc(i: nat)
    ensures TupleList(i + 1) == TupleList(i) + (if i > 0 then ", " else "") + Tuple(i)
  {
  }

  lemma AppendAssoc(a: string, b: string, c: string)
    ensures (a + b) + c == a + (b + c)
  {
  }

  /** The loop of InsertTasks that writes the statement and collects its arguments. */
  method BuildInsertTasks(batch: seq<Task>) returns (query: string, args: seq<string>)
    ensures query == InsertStatement(batch)
    ensures args == InsertArgs(batch)
  {
    query := InsertHeader;
    args := [];
    for i := 0 to |batch|
      invariant query == InsertHeader + TupleList(i)
      invariant args == InsertArgs(batch[..i])
    {
      TupleListSnoc(i);
      if i > 0 {
        AppendAssoc(InsertHeader, TupleList(i), ", ");
        query := query + ", ";
        AppendAssoc(InsertHeader, TupleList(i) + ", ", Tuple(i));
      } else {
        AppendAssoc(InsertHeader, TupleList(i), Tuple(i));
      }
      query := query + Tuple(i);
      args := args + Columns(batch[i]);
      assert batch[..i + 1][..i] == batch[..i];
      assert InsertArgs(batch[..i + 1]) == InsertArgs(batch[..i]) + Columns(batch[i]);
    }
    assert batch[..|batch|] == batch;
  }

  // ---------------------------------------------------------------------------------------------
  // The store

  class Store {
    var expressions: map<string, Expression>
    var tasks: seq<Task>

    /** Both tables keep their primary keys. */
    ghost predicate Valid()
      reads this
    {
      UniqueIds(tasks) && forall x :: x in expressions ==> expressions[x].id == x
    }

    constructor ()
      ensures Valid() && expressions == map[] && tasks == []
    {
      expressions := map[];
      tasks := [];
    }

    /** INSERT of a whole expression row; a taken id violates the primary key. */
    method InsertExpression(e: Expression) returns (r: Result<string, Fault>)
      requires Valid()
      modifies this
      ensures Valid() && tasks == old(tasks)
      ensures e.id in old(expressions) ==> r == Err(PersistenceError) && expressions == old(expressions)
      ensures e.id !in old(expressions) ==> r == Ok(e.id) && expressions == old(expressions)[e.id := e]
    {
      if e.id in expressions {
        return Err(PersistenceError);
      }
      expressions := expressions[e.id := e];
      return Ok(e.id);
    }

    /** UPDATE of text, status and result by id; an unknown id updates no row and is no error. */
    method UpdateExpression(e: Expression)
      requires Valid()
      modifies this
      ensures Valid() && tasks == old(tasks)
      ensures e.id in old(expressions) ==>
        expressions == old(expressions)[e.id := old(expressions)[e.id].(text := e.text, status := e.status, result := e.result)]
      ensures e.id !in old(expressions) ==> expressions == old(expressions)
    {
      if e.id in expressions {
        expressions := expressions[e.id := expressions[e.id].(text := e.text, status := e.status, result := e.result)];
      }
    }

    /**
     * One multi-row INSERT for the whole batch: nothing is executed for an empty batch; a batch
     * whose five placeholders per task exceed `MaxVariables`, or a duplicate id (within the batch
     * or against a stored row), rejects the whole statement.
     */
    method InsertTasks(batch: seq<Task>) returns (r: Result<(), Fault>)
      requires Valid()
      modifies this
      ensures Valid() && expressions == old(expressions)
      ensures batch == [] ==> r == Ok(()) && tasks == old(tasks)
      ensures batch != [] ==> (r.Ok? <==> 5 * |batch| <= MaxVariables && UniqueIds(old(tasks) + Stored(batch)))
      ensures r.Ok? ==> tasks == old(tasks) + Stored(batch)
      ensures r.Err? ==> r == Err(PersistenceError) && tasks == old(tasks)
    {
      if |batch| == 0 {
        return Ok(());
      }
      if 5 * |batch| > MaxVariables {
        return Err(PersistenceError);
      }
      var rows := InsertedRows(batch);
      if !UniqueIds(tasks + rows) {
        return Err(PersistenceError);
      }
      tasks := tasks + rows;
      return Ok(());
    }

    /** The first ready row in table order, or none; no row is modified. */
    method GetNextPendingTask() returns (r: Option<Task>)
      ensures r.None? <==> forall k :: 0 <= k < |tasks| ==> !Ready(tasks[k])
      ensures r.Some? ==> exists k :: 0 <= k < |tasks| && tasks[k] == r.value && Ready(tasks[k]) &&
                                      forall j :: 0 <= j < k ==> !Ready(tasks[j])
    {
      var i := 0;
      while i < |tasks|
        invariant 0 <= i <= |tasks|
        invariant forall j :: 0 <= j < i ==> !Ready(tasks[j])
      {
        if Ready(tasks[i]) {
          return Some(tasks[i]);
        }
        i := i + 1;
      }
      return None;
    }

    /**
     * Record `v` for task `taskId`, substitute its text into the dependent tasks of the same
     * expression, and complete the expression when none of its tasks is left unresolved. Every
     * failure rolls the whole transaction back.
     */
    method UpdateTaskResult(taskId: string, v: Value) returns (r: Result<(), Fault>)
      requires Valid()
      modifies this
      ensures Valid()
      ensures r.Err? ==> tasks == old(tasks) && expressions == old(expressions)
      ensures IndexOf(old(tasks), taskId).None? ==> r == Err(UnknownTask)
      ensures IndexOf(old(tasks), taskId).Some? && r.Err? ==> r == Err(PersistenceError)
      ensures IndexOf(old(tasks), taskId).Some? ==>
        var e := old(tasks)[IndexOf(old(tasks), taskId).value].expressionId;
        var ts := Cascade(old(tasks), taskId, v, e);
        var cands := Candidates(ts, old(expressions));
        && (PendingCount(ts, e) > 0 ==> r == Ok(()) && tasks == ts && expressions == old(expressions))
        && (PendingCount(ts, e) == 0 && (e !in old(expressions) || cands <= {None}) ==> r == Err(PersistenceError))
        && (PendingCount(ts, e) == 0 && e in old(expressions) && None !in cands && cands != {} ==> r.Ok?)
        && (PendingCount(ts, e) == 0 && r.Ok? ==>
              e in old(expressions) && tasks == ts &&
              exists w :: Some(w) in cands && expressions == old(expressions)[e := Complete(old(expressions)[e], w)])
    {
      var ts := SetResult(tasks, taskId, v);
      var idx := IndexOf(ts, taskId);
      IndexOfSameIds(tasks, ts, taskId);
      if idx.None? {
        return Err(UnknownTask);
      }
      var e := ts[idx.value].expressionId;
      ts := Substitute(ts, taskId, Format(v), e);
      UniqueIdsSameIds(tasks, ts);
      if PendingCount(ts, e) == 0 {
        if e !in expressions {
          return Err(PersistenceError);
        }
        var cands := Candidates(ts, expressions);
        if cands == {} {
          return Err(PersistenceError);
        }
        var pick :| pick in cands;
        if pick.None? {
          return Err(PersistenceError);
        }
        expressions := expressions[e := Complete(expressions[e], pick.value)];
      }
      tasks := ts;
      return Ok(());
    }
  }

  // ---------------------------------------------------------------------------------------------
  // Properties of the cascade

  /**
   * A task that is ready stays ready, and unchanged, when another task's result arrives: its
   * arguments hold no letter, so they cannot name the submitted task.
   */
  lemma ReadyStaysReady(ts: seq<Task>, id: string, v: Value, e: string, k: nat)
    requires HasLetter(id) && k < |ts| && Ready(ts[k]) && ts[k].id != id
    ensures Cascade(ts, id, v, e)[k] == ts[k]
    ensures Ready(Cascade(ts, id, v, e)[k])
  {
    SubstitutionScope(SetResult(ts, id, v), id, Format(v), e, k);
  }

  /** Statement 3 touches only dependent rows, and in them only the arguments that named the task. */
  lemma SubstitutionScope(ts: seq<Task>, id: string, text: string, e: string, k: nat)
    requires k < |ts|
    ensures var r := Substitute(ts, id, text, e);
      && r[k].id == ts[k].id && r[k].operation == ts[k].operation
      && r[k].result == ts[k].result && r[k].expressionId == ts[k].expressionId
      && (r[k] != ts[k] ==> Dependent(ts[k], id, e))
      && (r[k].arg1 != ts[k].arg1 ==> ts[k].arg1 == id && r[k].arg1 == text)
      && (r[k].arg2 != ts[k].arg2 ==> ts[k].arg2 == id && r[k].arg2 == text)
      && (Dependent(ts[k], id, e) && ts[k].arg1 == id ==> r[k].arg1 == text)
      && (Dependent(ts[k], id, e) && ts[k].arg2 == id ==> r[k].arg2 == text)
  {
  }

  /** Once substituted (by a text other than the id), no unresolved task of the expression names the task. */
  lemma SubstitutionClearsReferences(ts: seq<Task>, id: string, text: string, e: string)
    requires text != id
    ensures forall k :: 0 <= k < |ts| ==> !Dependent(Substitute(ts, id, text, e)[k], id, e)
  {
  }

  /** A second substitution for the same task rewrites nothing. */
  lemma NoDoubleSubstitution(ts: seq<Task>, id: string, text: string, text': string, e: string)
    requires text != id
    ensures Substitute(Substitute(ts, id, text, e), id, text', e) == Substitute(ts, id, text, e)
  {
    var r := Substitute(ts, id, text, e);
    SubstitutionClearsReferences(ts, id, text, e);
    assert forall k :: 0 <= k < |r| ==> Substitute(r, id, text', e)[k] == r[k];
  }

  /**
   * Submitting a task a second time only overwrites its stored result: the dependent tasks
   * already hold the first value's text and are not rewritten again.
   */
  lemma ResubmissionOverwrites(ts: seq<Task>, id: string, v: Value, w: Value, e: string)
    requires Format(v) != id
    ensures Cascade(Cascade(ts, id, v, e), id, w, e) == SetResult(Cascade(ts, id, v, e), id, w)
    ensures forall k :: 0 <= k < |ts| && ts[k].id == id ==> Cascade(Cascade(ts, id, v, e), id, w, e)[k].result == Some(w)
  {
    var c := Cascade(ts, id, v, e);
    var s := SetResult(c, id, w);
    SubstitutionClearsReferences(SetResult(ts, id, v), id, Format(v), e);
    forall k | 0 <= k < |s| ensures !Dependent(s[k], id, e) {
      assert !Dependent(c[k], id, e);
    }
    assert forall k :: 0 <= k < |s| ==> Substitute(s, id, Format(w), e)[k] == s[k];
  }

  /**
   * A rewritten task becomes ready exactly when the substituted text and its other argument are
   * both free of letters.
   */
  lemma ReadyAfterSubstitution(ts: seq<Task>, id: string, text: string, e: string, k: nat)
    requires k < |ts| && Dependent(ts[k], id, e)
    ensures Ready(Substitute(ts, id, text, e)[k]) <==>
      && !HasLetter(text)
      && (ts[k].arg1 == id || !HasLetter(ts[k].arg1))
      && (ts[k].arg2 == id || !HasLetter(ts[k].arg2))
  {
  }

  /** A value whose `%g` text is in exponent form, such as `1e+06`, leaves its dependents blocked. */
  lemma ExponentFormBlocksDependent(ts: seq<Task>, id: string, e: string, k: nat)
    requires k < |ts| && Dependent(ts[k], id, e)
    ensures !Ready(Substitute(ts, id, "1e+06", e)[k])
  {
    assert IsLetter("1e+06"[1]);
    ReadyAfterSubstitution(ts, id, "1e+06", e, k);
  }

  /** The pending count is zero exactly when every task of the expression has a result. */
  lemma {:induction false} PendingCountZero(ts: seq<Task>, e: string)
    ensures PendingCount(ts, e) == 0 <==> forall k :: 0 <= k < |ts| && ts[k].expressionId == e ==> ts[k].result.Some?
  {
    if ts != [] {
      var p := ts[..|ts| - 1];
      PendingCountZero(p, e);
      assert forall k :: 0 <= k < |p| ==> p[k] == ts[k];
    }
  }

  /**
   * When the completing expression is the only one whose result still names a root task, the
   * subquery can only return that root's result.
   */
  lemma CompletionValueOwnRoot(ts: seq<Task>, exprs: map<string, Expression>, e: string, k: nat)
    requires UniqueIds(ts) && k < |ts|
    requires e in exprs && exprs[e].result == IdCell(ts[k].id) && ts[k].expressionId == e
    requires forall x :: x in exprs && x != e ==> !exprs[x].result.IdCell?
    ensures Candidates(ts, exprs) == {ts[k].result}
  {
    var c := Candidates(ts, exprs);
    assert ts[k].result in c;
    forall o | o in c ensures o == ts[k].result {
      var j :| 0 <= j < |ts| && ts[j].expressionId in exprs && exprs[ts[j].expressionId].result == IdCell(ts[j].id)
               && ts[j].result == o;
      assert ts[j].id == ts[k].id;
    }
  }

  /**
   * The subquery is not tied to the expression being completed. Expression `b` is `3 * 4 * 5`,
   * whose root multiplies a blank by `5` (ChainedProductTakesBlank) and so is ready as soon as it
   * is inserted; once it has been resolved, `b` stays in progress while its first product is
   * still pending. Completing `a` in that state may store the value of `b`'s root.
   */
  lemma CompletionValueNotCorrelated(va: Value, vb: Value)
    ensures var ts := [Task("ta", "1", "2", "+", Some(va), "a"), Task("tb0", "3", "4", "*", None, "b"),
                       Task("tb1", "", "5", "*", Some(vb), "b")];
      var exprs := map["a" := Expression("a", "1 + 2", InProgress, IdCell("ta"), 1),
                       "b" := Expression("b", "3 * 4 * 5", InProgress, IdCell("tb1"), 1)];
      && Decomposition.Decompose(["3", "*", "4", "*", "5"], "b", ProductIds)
         == Ok([ts[1], ts[2].(result := None)])
      && PendingCount(ts, "b") == 1
      && Candidates(ts, exprs) == {Some(va), Some(vb)}
  {
    ProductTasks();
    var ts := [Task("ta", "1", "2", "+", Some(va), "a"), Task("tb0", "3", "4", "*", None, "b"),
               Task("tb1", "", "5", "*", Some(vb), "b")];
    var exprs := map["a" := Expression("a", "1 + 2", InProgress, IdCell("ta"), 1),
                     "b" := Expression("b", "3 * 4 * 5", InProgress, IdCell("tb1"), 1)];
    var c := Candidates(ts, exprs);
    assert ts[0].result in c;
    assert ts[2].result in c;
    assert exprs[ts[1].expressionId].result != IdCell(ts[1].id);
    assert PendingCount(ts[..1], "b") == 0 by {
      assert ts[..1][..0] == [];
    }
    assert PendingCount(ts[..2], "b") == 1 by {
      assert ts[..2][..1] == ts[..1];
    }
  }

  /** The task ids `3 * 4 * 5` is given in the scenario above. */
  function ProductIds(k: nat): (id: string)
    ensures HasLetter(id)
  {
    var id := if k == 0 then "tb0" else "tb1";
    assert IsLetter(id[0]);
    id
  }

  lemma ProductTasks()
    ensures Decomposition.Decompose(["3", "*", "4", "*", "5"], "b", ProductIds)
         == Ok([Task("tb0", "3", "4", "*", None, "b"), Task("tb1", "", "5", "*", None, "b")])
  {
    assert Tokens.IsNumber("3") && Tokens.IsNumber("4") && Tokens.IsNumber("5");
    Decomposition.ChainedProductTakesBlank("3", "4", "5", "b", ProductIds);
  }

  /**
   * The same subquery can also return the NULL result of another expression's unresolved root,
   * in which case the submission that completed `a` is rolled back as a whole.
   */
  lemma CompletionMayRollBack(va: Value)
    ensures var ts := [Task("ta", "1", "2", "+", Some(va), "a"), Task("tb", "3", "4", "*", None, "b")];
      var exprs := map["a" := Expression("a", "1 + 2", InProgress, IdCell("ta"), 1),
                       "b" := Expression("b", "3 * 4", InProgress, IdCell("tb"), 1)];
      Candidates(ts, exprs) == {Some(va), None}
  {
    var ts := [Task("ta", "1", "2", "+", Some(va), "a"), Task("tb", "3", "4", "*", None, "b")];
    var exprs := map["a" := Expression("a", "1 + 2", InProgress, IdCell("ta"), 1),
                     "b" := Expression("b", "3 * 4", InProgress, IdCell("tb"), 1)];
    var c := Candidates(ts, exprs);
    assert ts[0].result in c;
    assert ts[1].result in c;
  }

  /**
   * Once no expression still names a root task (every one is completed or has no task), the
   * subquery finds no row: a late resubmission that reaches the completion step is rolled back.
   */
  lemma NoRootNoCandidate(ts: seq<Task>, exprs: map<string, Expression>)
    requires forall x :: x in exprs ==> !exprs[x].result.IdCell?
    ensures Candidates(ts, exprs) == {}
  {
  }
}
