/**
 * The request handlers of the orchestrator that drive the core (internal/handler/handler.go):
 * accepting an expression and splitting it into tasks, and the per-operation delay handed to
 * workers with each task.
 */
module Handler {
  import opened Wrappers
  import opened Model
  import opened Tokens
  import opened Decomposition
  import opened Database

  /** The configured duration, in milliseconds, of each of the four operations. */
  datatype OperationTimes = OperationTimes(addition: int, subtraction: int, multiplication: int, division: int)

  /** `getOperationTime`: the configured duration of an operator, 0 for any other text. */
  function OperationTime(op: string, times: OperationTimes): (ms: int)
    ensures op == "+" ==> ms == times.addition
    ensures op == "-" ==> ms == times.subtraction
    ensures op == "*" ==> ms == times.multiplication
    ensures op == "/" ==> ms == times.division
    ensures !IsOperator(op) ==> ms == 0
  {
    match op
    case "+" => times.addition
    case "-" => times.subtraction
    case "*" => times.multiplication
    case "/" => times.division
    case _ => 0
  }

  /** Every task an expression is split into is dispatched with one of the configured durations. */
  lemma EmittedTasksAreTimed(tokens: seq<string>, exprId: string, ids: nat -> string, times: OperationTimes)
    ensures var r := Decompose(tokens, exprId, ids);
      r.Ok? ==> forall k :: 0 <= k < |r.value| ==>
        OperationTime(r.value[k].operation, times) in {times.addition, times.subtraction, times.multiplication, times.division}
  {
    DecomposeTraceable(tokens, exprId, ids);
  }

  /** The `result` column of a freshly split expression: its last task, if it has any. */
  function Root(ts: seq<Task>): (c: ResultCell)
    ensures ts == [] <==> c == NullCell
    ensures ts != [] ==> c == IdCell(ts[|ts| - 1].id)
  {
    if ts == [] then NullCell else IdCell(ts[|ts| - 1].id)
  }

  /**
   * `AddExpression`: validate the text, store it as pending, split it into tasks, store the
   * tasks, then record the root task and mark the expression in progress. `exprId` is the fresh
   * id of the expression and `ids(k)` that of its k-th task. An operator without a neighbour
   * aborts the request after the expression row was stored.
   */
  method AddExpression(store: Store, userId: int, text: string, exprId: string, ids: nat -> string)
    returns (r: Result<string, Fault>)
    requires store.Valid()
    modifies store
    ensures store.Valid()
    ensures !IsValidExpression(text) ==> r == Err(InvalidExpression) && store.expressions == old(store.expressions) && store.tasks == old(store.tasks)
    ensures IsValidExpression(text) && exprId in old(store.expressions) ==>
      r == Err(PersistenceError) && store.expressions == old(store.expressions) && store.tasks == old(store.tasks)
    ensures IsValidExpression(text) && exprId !in old(store.expressions) ==>
      var pending := Expression(exprId, text, Pending, NullCell, userId);
      match Decompose(Tokenize(text), exprId, ids)
      case Err(f) =>
        r == Err(f) && store.tasks == old(store.tasks) && store.expressions == old(store.expressions)[exprId := pending]
      case Ok(ts) =>
        if ts != [] && !(5 * |ts| <= MaxVariables && UniqueIds(old(store.tasks) + Stored(ts))) then
          r == Err(PersistenceError) && store.tasks == old(store.tasks)
          && store.expressions == old(store.expressions)[exprId := pending]
        else
          r == Ok(exprId) && store.tasks == old(store.tasks) + Stored(ts)
          && store.expressions == old(store.expressions)[exprId := Expression(exprId, text, InProgress, Root(ts), userId)]
  {
    if !IsValidExpression(text) {
      return Err(InvalidExpression);
    }
    var expr := Expression(exprId, text, Pending, NullCell, userId);
    var inserted := store.InsertExpression(expr);
    if inserted.Err? {
      return Err(PersistenceError);
    }
    var tokens := Tokenize(text);
    var split := DecomposeTokens(tokens, exprId, ids);
    if split.Err? {
      return Err(split.error);
    }
    var tasks := split.value;
    if |tasks| > 0 {
      var stored := store.InsertTasks(tasks);
      if stored.Err? {
        return Err(PersistenceError);
      }
      expr := expr.(result := IdCell(tasks[|tasks| - 1].id));
    }
    expr := expr.(status := InProgress);
    store.UpdateExpression(expr);
    return Ok(exprId);
  }

  /** No token of the tokenizer contains a letter, so no token can be mistaken for a task id. */
  lemma TokenHasNoLetter(t: string)
    requires IsToken(t)
    ensures !HasLetter(t)
  {
    forall i | 0 <= i < |t| ensures !IsLetter(t[i]) {
      if IsOperator(t) {
        assert t[i] == t[0];
      }
    }
  }

  /**
   * With distinct task ids that contain a letter, every task of a split text reads only tokens
   * of the text, blanks and tasks emitted before it.
   */
  lemma SplitTextIsAcyclic(text: string, exprId: string, ids: nat -> string)
    requires forall k :: HasLetter(ids(k))
    requires forall j, k :: j != k ==> ids(j) != ids(k)
    ensures var r := Decompose(Tokenize(text), exprId, ids);
      r.Ok? ==> forall k, j ::
        (0 <= k < |r.value| && 0 <= j < |r.value| &&
         (r.value[k].arg1 == r.value[j].id || r.value[k].arg2 == r.value[j].id)) ==> j < k
  {
    var tokens := Tokenize(text);
    forall k ensures ids(k) !in tokens {
      if ids(k) in tokens {
        var i :| 0 <= i < |tokens| && tokens[i] == ids(k);
        TokenHasNoLetter(tokens[i]);
      }
    }
    ReferencesPointBackward(tokens, exprId, ids);
  }

  /** The expression of the handler tests, `2 + 3 * 4`, yields five tokens. */
  lemma TokenizeExample()
    ensures Tokenize("2 + 3 * 4") == ["2", "+", "3", "*", "4"]
  {
    var s := "2 + 3 * 4";
    TokenizeProductText();
    assert s[4..] == "3 * 4";
    assert s[3..] == " 3 * 4" && " 3 * 4"[1..] == "3 * 4";
    assert s[2..] == "+ 3 * 4" && "+ 3 * 4"[1..] == " 3 * 4";
    assert Tokenize(s[2..]) == ["+", "3", "*", "4"];
    assert s[1..] == " + 3 * 4" && " + 3 * 4"[1..] == "+ 3 * 4";
    assert DigitRun(s[1..]) == 0;
    assert DigitRun(s) == 1;
    assert s[..1] == "2";
  }

  lemma TokenizeProductText()
    ensures Tokenize("3 * 4") == ["3", "*", "4"]
  {
    var s := "3 * 4";
    assert s[4..] == "4" && "4"[1..] == "" && "4"[..1] == "4";
    assert DigitRun("4") == 1;
    assert Tokenize("4") == ["4"];
    assert s[3..] == " 4" && " 4"[1..] == "4";
    assert s[2..] == "* 4" && "* 4"[1..] == " 4";
    assert Tokenize(s[2..]) == ["*", "4"];
    assert s[1..] == " * 4" && " * 4"[1..] == "* 4";
    assert DigitRun(" * 4") == 0;
    assert DigitRun(s) == 1;
    assert s[..1] == "3";
  }

  /**
   * `2 + 3 * 4` is split into the product, dispatched first, and the sum that waits for it.
   */
  lemma DecomposeExample(exprId: string, ids: nat -> string)
    requires HasLetter(ids(0)) && HasLetter(ids(1))
    ensures Decompose(["2", "+", "3", "*", "4"], exprId, ids)
         == Ok([NewTask(ids(0), "3", "4", "*", exprId), NewTask(ids(1), "2", ids(0), "+", exprId)])
  {
    var t0 := NewTask(ids(0), "3", "4", "*", exprId);
    var t1 := NewTask(ids(1), "2", ids(0), "+", exprId);
    var s1 := ["2", "+", ids(0), "", ""];
    var c1 := ["2", "+", ids(0)];
    ExampleProductScan(exprId, ids);
    ExampleCompact(ids(0));
    ExampleSumScan(exprId, ids);
  }

  lemma ExampleProductScan(exprId: string, ids: nat -> string)
    requires HasLetter(ids(0))
    ensures PassFrom(["2", "+", "3", "*", "4"], 0, MulDiv, exprId, ids, [])
         == Ok(Scan(["2", "+", ids(0), "", ""], [NewTask(ids(0), "3", "4", "*", exprId)]))
  {
    var s := ["2", "+", "3", "*", "4"];
    var t0 := NewTask(ids(0), "3", "4", "*", exprId);
    var s1 := ["2", "+", ids(0), "", ""];
    PassSkip(s, 0, MulDiv, exprId, ids, []);
    PassSkip(s, 1, MulDiv, exprId, ids, []);
    PassSkip(s, 2, MulDiv, exprId, ids, []);
    PassStep(s, 3, MulDiv, exprId, ids, []);
    assert s[2 := ids(0)][3 := ""][4 := ""] == s1;
    assert [] + [t0] == [t0];
    PassSkip(s1, 4, MulDiv, exprId, ids, [t0]);
  }

  lemma ExampleCompact(id: string)
    requires HasLetter(id)
    ensures Compact(["2", "+", id, "", ""]) == ["2", "+", id]
  {
    var c1 := ["2", "+", id];
    LetterIsOperand(id);
    CompactNoBlank(c1);
    CompactSnoc(c1, "");
    CompactSnoc(c1 + [""], "");
    assert c1 + [""] + [""] == ["2", "+", id, "", ""];
  }

  lemma ExampleSumScan(exprId: string, ids: nat -> string)
    requires HasLetter(ids(0)) && HasLetter(ids(1))
    ensures var t0 := NewTask(ids(0), "3", "4", "*", exprId);
      PassFrom(["2", "+", ids(0)], 0, AddSub, exprId, ids, [t0])
      == Ok(Scan([ids(1), "", ""], [t0, NewTask(ids(1), "2", ids(0), "+", exprId)]))
  {
    var c1 := ["2", "+", ids(0)];
    var t0 := NewTask(ids(0), "3", "4", "*", exprId);
    var t1 := NewTask(ids(1), "2", ids(0), "+", exprId);
    var s2 := [ids(1), "", ""];
    LetterIsOperand(ids(0));
    PassSkip(c1, 0, AddSub, exprId, ids, [t0]);
    PassStep(c1, 1, AddSub, exprId, ids, [t0]);
    assert c1[0 := ids(1)][1 := ""][2 := ""] == s2;
    assert [t0] + [t1] == [t0, t1];
    PassSkip(s2, 2, AddSub, exprId, ids, [t0, t1]);
  }

  // ---------------------------------------------------------------------------------------------
  // The round trip the handler tests begin: `2 + 3 * 4`, results 12 and then 14 (the tests stop
  // after submitting 12)

  lemma FirstCascade(exprId: string, ids: nat -> string, v: Value)
    requires HasLetter(ids(0)) && HasLetter(ids(1)) && ids(0) != ids(1) && !HasLetter(Format(v))
    ensures var ts := [NewTask(ids(0), "3", "4", "*", exprId), NewTask(ids(1), "2", ids(0), "+", exprId)];
      && IndexOf(ts, ids(0)) == Some(0)
      && Cascade(ts, ids(0), v, exprId)
         == [Task(ids(0), "3", "4", "*", Some(v), exprId), NewTask(ids(1), "2", Format(v), "+", exprId)]
      && PendingCount(Cascade(ts, ids(0), v, exprId), exprId) == 1
  {
    var ts := [NewTask(ids(0), "3", "4", "*", exprId), NewTask(ids(1), "2", ids(0), "+", exprId)];
    var r := Cascade(ts, ids(0), v, exprId);
    var expected := [Task(ids(0), "3", "4", "*", Some(v), exprId), NewTask(ids(1), "2", Format(v), "+", exprId)];
    LetterTextIsNoOperator(ids(0));
    assert "2" != ids(0);
    assert r[0] == expected[0];
    assert r[1] == expected[1];
    assert r == expected;
    assert r[..1] == [expected[0]];
    assert [expected[0]][..0] == [];
  }

  lemma SecondCascade(exprId: string, ids: nat -> string, v: Value, w: Value)
    requires ids(0) != ids(1)
    ensures var ts := [Task(ids(0), "3", "4", "*", Some(v), exprId), NewTask(ids(1), "2", Format(v), "+", exprId)];
      && IndexOf(ts, ids(1)) == Some(1)
      && Cascade(ts, ids(1), w, exprId)
         == [Task(ids(0), "3", "4", "*", Some(v), exprId), Task(ids(1), "2", Format(v), "+", Some(w), exprId)]
      && PendingCount(Cascade(ts, ids(1), w, exprId), exprId) == 0
  {
    var ts := [Task(ids(0), "3", "4", "*", Some(v), exprId), NewTask(ids(1), "2", Format(v), "+", exprId)];
    var r := Cascade(ts, ids(1), w, exprId);
    var expected := [Task(ids(0), "3", "4", "*", Some(v), exprId), Task(ids(1), "2", Format(v), "+", Some(w), exprId)];
    assert r[0] == expected[0];
    assert r[1] == expected[1];
    assert r == expected;
    assert r[..1] == [expected[0]];
    assert [expected[0]][..0] == [];
  }

  /** The validation of the test expression passes. */
  lemma ExampleIsValid()
    ensures IsValidExpression("2 + 3 * 4")
  {
    var text := "2 + 3 * 4";
    forall i | 0 <= i < |text| ensures IsAllowed(text[i]) {
    }
  }

  lemma ExampleSplit(text: string, exprId: string, ids: nat -> string)
    requires text == "2 + 3 * 4"
    requires HasLetter(ids(0)) && HasLetter(ids(1))
    ensures IsValidExpression(text)
    ensures Decompose(Tokenize(text), exprId, ids)
         == Ok([NewTask(ids(0), "3", "4", "*", exprId), NewTask(ids(1), "2", ids(0), "+", exprId)])
  {
    ExampleTokens(text);
    DecomposeExample(exprId, ids);
  }

  /** Two fresh rows with distinct ids are stored as built, and the second is the root. */
  lemma TwoRows(t0: Task, t1: Task)
    requires t0.result == None && t1.result == None && t0.id != t1.id
    ensures Stored([t0, t1]) == [] + Stored([t0, t1]) == [t0, t1]
    ensures UniqueIds([t0, t1]) && Root([t0, t1]) == IdCell(t1.id)
  {
    var ts := [t0, t1];
    var st := Stored(ts);
    assert st[0] == t0.(result := None) == t0;
    assert st[1] == t1.(result := None) == t1;
    assert st == ts;
    forall j, k | 0 <= j < k < |ts| ensures ts[j].id != ts[k].id {
      assert j == 0 && k == 1;
    }
  }

  lemma ExampleTokens(text: string)
    requires text == "2 + 3 * 4"
    ensures IsValidExpression(text) && Tokenize(text) == ["2", "+", "3", "*", "4"]
  {
    TokenizeExample();
    ExampleIsValid();
  }

  /** Adding `2 + 3 * 4` to an empty store stores its two tasks and marks it in progress. */
  method AddExample(store: Store, userId: int, text: string, exprId: string, ids: nat -> string)
    requires text == "2 + 3 * 4"
    requires store.Valid() && store.tasks == [] && store.expressions == map[]
    requires HasLetter(ids(0)) && HasLetter(ids(1)) && ids(0) != ids(1)
    modifies store
    ensures store.Valid()
    ensures store.tasks == [NewTask(ids(0), "3", "4", "*", exprId), NewTask(ids(1), "2", ids(0), "+", exprId)]
    ensures store.expressions == map[exprId := Expression(exprId, text, InProgress, IdCell(ids(1)), userId)]
  {
    ExampleSplit(text, exprId, ids);
    TwoRows(NewTask(ids(0), "3", "4", "*", exprId), NewTask(ids(1), "2", ids(0), "+", exprId));
    var added := AddExpression(store, userId, text, exprId, ids);
  }

  /** Submitting the root's result completes the expression with that result. */
  method SubmitRoot(store: Store, userId: int, text: string, exprId: string, ids: nat -> string, v: Value, w: Value)
    requires ids(0) != ids(1)
    requires store.Valid()
    requires store.tasks == [Task(ids(0), "3", "4", "*", Some(v), exprId), NewTask(ids(1), "2", Format(v), "+", exprId)]
    requires store.expressions == map[exprId := Expression(exprId, text, InProgress, IdCell(ids(1)), userId)]
    modifies store
    ensures store.expressions == map[exprId := Expression(exprId, text, Completed, ValueCell(w), userId)]
  {
    var t0 := Task(ids(0), "3", "4", "*", Some(v), exprId);
    var t1 := Task(ids(1), "2", Format(v), "+", Some(w), exprId);
    var root := Expression(exprId, text, InProgress, IdCell(ids(1)), userId);
    SecondCascade(exprId, ids, v, w);
    CompletionValueOwnRoot([t0, t1], map[exprId := root], exprId, 1);
    assert Candidates([t0, t1], map[exprId := root]) == {Some(w)};
    var submitted := store.UpdateTaskResult(ids(1), w);
    assert submitted.Ok?;
  }

  /**
   * From an empty store: the `*` task is dispatched first, the submitted 12 is stored and
   * substituted into the `+` task, which is dispatched next, and submitting its result completes
   * the expression with that result.
   */
  method SubmitScenario(userId: int, exprId: string, ids: nat -> string, twelve: Value, fourteen: Value)
    returns (first: Option<Task>, stored: Option<Value>, second: Option<Task>, last: Expression)
    requires HasLetter(ids(0)) && HasLetter(ids(1)) && ids(0) != ids(1) && !HasLetter(Format(twelve))
    ensures first == Some(NewTask(ids(0), "3", "4", "*", exprId))
    ensures stored == Some(twelve)
    ensures second == Some(NewTask(ids(1), "2", Format(twelve), "+", exprId))
    ensures last == Expression(exprId, "2 + 3 * 4", Completed, ValueCell(fourteen), userId)
  {
    var text := "2 + 3 * 4";
    var t0 := NewTask(ids(0), "3", "4", "*", exprId);
    var t1 := NewTask(ids(1), "2", ids(0), "+", exprId);
    var store := new Store();
    AddExample(store, userId, text, exprId, ids);

    assert Ready(t0) && !Ready(t1);
    first := store.GetNextPendingTask();

    FirstCascade(exprId, ids, twelve);
    var submitted := store.UpdateTaskResult(ids(0), twelve);
    var t0' := Task(ids(0), "3", "4", "*", Some(twelve), exprId);
    var t1' := NewTask(ids(1), "2", Format(twelve), "+", exprId);
    assert store.tasks == [t0', t1'];
    stored := store.tasks[0].result;

    assert !Ready(t0') && Ready(t1');
    second := store.GetNextPendingTask();

    SubmitRoot(store, userId, text, exprId, ids, twelve, fourteen);
    last := store.expressions[exprId];
  }
}
