/**
 * The decomposition performed by `AddExpression` (internal/handler/handler.go): a left-to-right
 * scan for `*` and `/`, a compaction that drops blanked slots, and a second scan for `+` and `-`.
 * Each operator met by a scan emits one binary task whose operands are the slots on either side;
 * the left slot is then overwritten with the new task's id and the operator and right slots are
 * blanked, in place.
 *
 * `PassFrom`, `Compact` and `Decompose` specify the scans on token sequences; `RunPass` and
 * `DecomposeTokens` perform them in place on arrays, as the handler does on its token slice.
 * Task ids come from a supply `ids`: the k-th task emitted by one call gets `ids(k)`.
 */
module Decomposition {
  import opened Wrappers
  import opened Model
  import opened Tokens

  /** The two precedence tiers, one per scan. */
  datatype Tier = MulDiv | AddSub

  predicate InTier(t: string, tier: Tier)
  {
    match tier
    case MulDiv => t == "*" || t == "/"
    case AddSub => t == "+" || t == "-"
  }

  /** The token slots and the tasks emitted so far. */
  datatype Scan = Scan(toks: seq<string>, tasks: seq<Task>)

  /** A task as the handler builds it: no result yet. */
  function NewTask(id: string, arg1: string, arg2: string, op: string, exprId: string): (t: Task)
  {
    Task(id, arg1, arg2, op, None, exprId)
  }

  /**
   * One scan of the tier's operators, from slot `i` on. An operator in the first or the last slot
   * has no neighbour on one side; the handler then indexes outside its slice, which is reported
   * here as a malformed expression.
   */
  function PassFrom(toks: seq<string>, i: nat, tier: Tier, exprId: string, ids: nat -> string,
                    done: seq<Task>): (r: Result<Scan, Fault>)
    ensures r.Err? ==> r.error == MalformedExpression
    ensures r.Ok? ==> |r.value.toks| == |toks| && |done| <= |r.value.tasks| && r.value.tasks[..|done|] == done
    decreases |toks| - i
  {
    if i >= |toks| then Ok(Scan(toks, done))
    else if !InTier(toks[i], tier) then PassFrom(toks, i + 1, tier, exprId, ids, done)
    else if i == 0 || i == |toks| - 1 then Err(MalformedExpression)
    else
      var t := NewTask(ids(|done|), toks[i - 1], toks[i + 1], toks[i], exprId);
      PassFrom(toks[i - 1 := t.id][i := ""][i + 1 := ""], i + 1, tier, exprId, ids, done + [t])
  }

  /** The slots with the blanked ones removed, order kept. */
  function Compact(s: seq<string>): (r: seq<string>)
    ensures |r| <= |s|
    ensures forall x :: x in r ==> x in s && x != ""
    ensures forall x :: x in s && x != "" ==> x in r
  {
    if s == [] then []
    else Compact(s[..|s| - 1]) + (if s[|s| - 1] == "" then [] else [s[|s| - 1]])
  }

  /** The tasks of one expression: the `*`/`/` scan, the compaction, then the `+`/`-` scan. */
  function Decompose(tokens: seq<string>, exprId: string, ids: nat -> string): (r: Result<seq<Task>, Fault>)
    ensures r.Err? ==> r.error == MalformedExpression
  {
    match PassFrom(tokens, 0, MulDiv, exprId, ids, [])
    case Err(f) => Err(f)
    case Ok(s1) =>
      match PassFrom(Compact(s1.toks), 0, AddSub, exprId, ids, s1.tasks)
      case Err(f) => Err(f)
      case Ok(s2) => Ok(s2.tasks)
  }

  /** One scan over the slots of `a`, rewriting them in place and appending to `done`. */
  method RunPass(a: array<string>, tier: Tier, exprId: string, ids: nat -> string, done: seq<Task>)
    returns (r: Result<seq<Task>, Fault>)
    modifies a
    ensures r.Ok? ==> PassFrom(old(a[..]), 0, tier, exprId, ids, done) == Ok(Scan(a[..], r.value))
    ensures r.Err? ==> PassFrom(old(a[..]), 0, tier, exprId, ids, done) == Err(r.error)
  {
    var tasks := done;
    var i := 0;
    while i < a.Length
      invariant 0 <= i <= a.Length
      invariant PassFrom(a[..], i, tier, exprId, ids, tasks) == PassFrom(old(a[..]), 0, tier, exprId, ids, done)
    {
      if InTier(a[i], tier) {
        if i == 0 || i == a.Length - 1 {
          return Err(MalformedExpression);
        }
        ghost var before := a[..];
        var taskId := ids(|tasks|);
        var t := NewTask(taskId, a[i - 1], a[i + 1], a[i], exprId);
        tasks := tasks + [t];
        a[i - 1] := taskId;
        a[i] := "";
        a[i + 1] := "";
        assert a[..] == before[i - 1 := taskId][i := ""][i + 1 := ""];
      }
      i := i + 1;
    }
    assert a[..] == a[..i];
    return Ok(tasks);
  }

  /** The decomposition as the handler runs it: two in-place scans around a filtering copy. */
  method DecomposeTokens(tokens: seq<string>, exprId: string, ids: nat -> string)
    returns (r: Result<seq<Task>, Fault>)
    ensures r == Decompose(tokens, exprId, ids)
  {
    var a := new string[|tokens|](k requires 0 <= k < |tokens| => tokens[k]);
    assert a[..] == tokens;
    var first := RunPass(a, MulDiv, exprId, ids, []);
    if first.Err? {
      return Err(first.error);
    }
    var filtered: seq<string> := [];
    for k := 0 to a.Length
      invariant filtered == Compact(a[..k])
    {
      assert a[..k + 1][..k] == a[..k];
      if a[k] != "" {
        filtered := filtered + [a[k]];
      }
    }
    assert a[..a.Length] == a[..];
    var b := new string[|filtered|](k requires 0 <= k < |filtered| => filtered[k]);
    assert b[..] == filtered;
    var second := RunPass(b, AddSub, exprId, ids, first.value);
    if second.Err? {
      return Err(second.error);
    }
    return Ok(second.value);
  }

  // ---------------------------------------------------------------------------------------------
  // Views used to state what the scans produce

  /** The operator of every task, in emission order. */
  function Ops(ts: seq<Task>): (r: seq<string>)
  {
    seq(|ts|, k requires 0 <= k < |ts| => ts[k].operation)
  }

  /** The tokens of one tier, in order. */
  function Filter(s: seq<string>, tier: Tier): (r: seq<string>)
  {
    if s == [] then []
    else (if InTier(s[0], tier) then [s[0]] else []) + Filter(s[1..], tier)
  }

  /** A token list of the intended form: number, operator, number, ..., number. */
  predicate Alternating(s: seq<string>)
  {
    |s| % 2 == 1 &&
    forall k :: 0 <= k < |s| ==> if k % 2 == 0 then IsNumber(s[k]) else IsOperator(s[k])
  }

  /** A slot holding an operand: a number or a task id, neither blank nor an operator. */
  predicate Operand(x: string)
  {
    x != "" && !IsOperator(x)
  }

  /**
   * The compacted slots after the first scan of an alternating list: operands, with single `+`/`-`
   * operators strictly between them.
   */
  predicate Shape(c: seq<string>)
  {
    && |c| > 0
    && Operand(c[0])
    && Operand(c[|c| - 1])
    && (forall k :: 0 <= k < |c| ==> Operand(c[k]) || InTier(c[k], AddSub))
    && (forall k :: 0 <= k < |c| - 1 ==> Operand(c[k]) || Operand(c[k + 1]))
  }

  /** Every operator of the tier met from slot `i` on has two neighbours, the right one not of the tier. */
  predicate SeparatedFrom(toks: seq<string>, i: nat, tier: Tier)
  {
    forall j :: i <= j < |toks| && InTier(toks[j], tier) ==> 0 < j < |toks| - 1 && !InTier(toks[j + 1], tier)
  }

  // ---------------------------------------------------------------------------------------------
  // Small facts

  lemma {:induction false} FilterAppend(x: seq<string>, y: seq<string>, tier: Tier)
    ensures Filter(x + y, tier) == Filter(x, tier) + Filter(y, tier)
    decreases |x|
  {
    if x == [] {
      assert x + y == y;
    } else {
      assert (x + y)[1..] == x[1..] + y;
      FilterAppend(x[1..], y, tier);
    }
  }

  lemma {:induction false} CompactAppend(x: seq<string>, y: seq<string>)
    ensures Compact(x + y) == Compact(x) + Compact(y)
    decreases |y|
  {
    if y == [] {
      assert x + y == x;
    } else {
      var y' := y[..|y| - 1];
      assert (x + y)[..|x + y| - 1] == x + y';
      CompactAppend(x, y');
    }
  }

  lemma NumberIsOperand(t: string)
    requires IsNumber(t)
    ensures Operand(t) && !InTier(t, MulDiv) && !InTier(t, AddSub)
  {
    assert IsDigit(t[0]);
  }

  lemma LetterIsOperand(t: string)
    requires HasLetter(t)
    ensures Operand(t) && !InTier(t, MulDiv) && !InTier(t, AddSub)
  {
    LetterTextIsNoOperator(t);
  }

  lemma ShapeSeparated(c: seq<string>)
    requires Shape(c)
    ensures SeparatedFrom(c, 0, AddSub)
  {
  }

  lemma ShapeAppendOperand(c: seq<string>, x: string)
    requires Shape(c) && Operand(x)
    ensures Shape(c + [x])
  {
    var d := c + [x];
    assert forall k :: 0 <= k < |c| ==> d[k] == c[k];
  }

  lemma ShapeReplaceLast(c: seq<string>, x: string)
    requires Shape(c) && Operand(x)
    ensures Shape(c[..|c| - 1] + [x])
  {
    var d := c[..|c| - 1] + [x];
    assert forall k :: 0 <= k < |c| - 1 ==> d[k] == c[k];
  }

  lemma ShapeAppendTerm(c: seq<string>, op: string, x: string)
    requires Shape(c) && InTier(op, AddSub) && Operand(x)
    ensures Shape(c + [op, x])
  {
    var d := c + [op, x];
    assert forall k :: 0 <= k < |c| ==> d[k] == c[k];
    assert d[|c|] == op && d[|c| + 1] == x;
  }

  // ---------------------------------------------------------------------------------------------
  // One task per operator

  lemma FilterCons(x: string, rest: seq<string>, tier: Tier)
    ensures Filter([x] + rest, tier) == (if InTier(x, tier) then [x] else []) + Filter(rest, tier)
  {
    assert ([x] + rest)[1..] == rest;
  }

  lemma OpsSnoc(done: seq<Task>, t: Task)
    ensures Ops(done + [t]) == Ops(done) + [t.operation]
  {
  }

  /** The scan step at an operator of the tier with a neighbour on each side. */
  lemma PassStep(toks: seq<string>, i: nat, tier: Tier, exprId: string, ids: nat -> string, done: seq<Task>)
    requires 0 < i < |toks| - 1 && InTier(toks[i], tier)
    ensures var t := NewTask(ids(|done|), toks[i - 1], toks[i + 1], toks[i], exprId);
      PassFrom(toks, i, tier, exprId, ids, done)
      == PassFrom(toks[i - 1 := t.id][i := ""][i + 1 := ""], i + 1, tier, exprId, ids, done + [t])
  {
  }

  /** What remains of the tier's operators after the step at slot `i` (the right slot is not of the tier). */
  lemma FilterAfterStep(toks: seq<string>, i: nat, id: string, tier: Tier)
    requires 0 < i < |toks| - 1 && InTier(toks[i], tier) && !InTier(toks[i + 1], tier)
    ensures Filter(toks[i..], tier) == [toks[i]] + Filter(toks[i - 1 := id][i := ""][i + 1 := ""][i + 1..], tier)
  {
    var next := toks[i - 1 := id][i := ""][i + 1 := ""];
    var rest := toks[i + 2..];
    assert toks[i..] == [toks[i]] + ([toks[i + 1]] + rest);
    assert next[i + 1..] == [""] + rest;
    FilterCons(toks[i], [toks[i + 1]] + rest, tier);
    FilterCons(toks[i + 1], rest, tier);
    FilterCons("", rest, tier);
  }

  /** A scan in which no operator of the tier is stuck emits one task per such operator, in order. */
  lemma {:induction false} SeparatedPass(toks: seq<string>, i: nat, tier: Tier, exprId: string,
                                         ids: nat -> string, done: seq<Task>)
    requires i <= |toks| && SeparatedFrom(toks, i, tier)
    requires forall k :: HasLetter(ids(k))
    ensures PassFrom(toks, i, tier, exprId, ids, done).Ok?
    ensures Ops(PassFrom(toks, i, tier, exprId, ids, done).value.tasks) == Ops(done) + Filter(toks[i..], tier)
    decreases |toks| - i
  {
    if i == |toks| {
      assert toks[i..] == [];
    } else {
      if !InTier(toks[i], tier) {
        assert toks[i..] == [toks[i]] + toks[i + 1..];
        FilterCons(toks[i], toks[i + 1..], tier);
        SeparatedPass(toks, i + 1, tier, exprId, ids, done);
      } else {
        var t := NewTask(ids(|done|), toks[i - 1], toks[i + 1], toks[i], exprId);
        var next := toks[i - 1 := t.id][i := ""][i + 1 := ""];
        PassStep(toks, i, tier, exprId, ids, done);
        LetterIsOperand(t.id);
        SeparatedAfterStep(toks, i, t.id, tier);
        SeparatedPass(next, i + 1, tier, exprId, ids, done + [t]);
        OpsSnoc(done, t);
        FilterAfterStep(toks, i, t.id, tier);
      }
    }
  }

  lemma SeparatedAfterStep(toks: seq<string>, i: nat, id: string, tier: Tier)
    requires 0 < i < |toks| - 1 && SeparatedFrom(toks, i, tier) && InTier(toks[i], tier)
    ensures SeparatedFrom(toks[i - 1 := id][i := ""][i + 1 := ""], i + 1, tier)
  {
    var next := toks[i - 1 := id][i := ""][i + 1 := ""];
    forall j | i + 1 <= j < |next| && InTier(next[j], tier)
      ensures 0 < j < |next| - 1 && !InTier(next[j + 1], tier)
    {
      assert j > i + 1 && next[j] == toks[j];
      assert j + 1 < |next| ==> next[j + 1] == toks[j + 1];
    }
  }

  /** The filters of an alternating list across the operator slot `i` and the number after it. */
  lemma AlternatingStepFilters(s: seq<string>, i: nat)
    requires Alternating(s) && i % 2 == 1 && i < |s|
    ensures i + 1 < |s| && IsOperator(s[i]) && IsNumber(s[i + 1])
    ensures Filter(s[i..], MulDiv) == (if InTier(s[i], MulDiv) then [s[i]] else []) + Filter(s[i + 2..], MulDiv)
    ensures Filter(s[..i + 2], AddSub) == Filter(s[..i], AddSub) + (if InTier(s[i], AddSub) then [s[i]] else [])
  {
    NumberIsOperand(s[i + 1]);
    var pair := [s[i], s[i + 1]];
    assert s[i..] == [s[i]] + ([s[i + 1]] + s[i + 2..]);
    FilterCons(s[i], [s[i + 1]] + s[i + 2..], MulDiv);
    FilterCons(s[i + 1], s[i + 2..], MulDiv);
    assert s[..i + 2] == s[..i] + pair;
    FilterAppend(s[..i], pair, AddSub);
    FilterCons(s[i], [s[i + 1]], AddSub);
    FilterCons(s[i + 1], [], AddSub);
  }

  /** The compacted prefix after a `*`/`/` step: the left operand slot now holds the new id. */
  lemma MulDivStepCompact(a: seq<string>, i: nat, id: string)
    requires 0 < i < |a| - 1 && Operand(id)
    requires Shape(Compact(a[..i]))
    ensures var next := a[i - 1 := id][i := ""][i + 1 := ""];
      && Shape(Compact(next[..i + 2]))
      && Filter(Compact(next[..i + 2]), AddSub) == Filter(Compact(a[..i]), AddSub)
  {
    var c := Compact(a[..i]);
    var pre := Compact(a[..i - 1]);
    StepPrefix(a, i, id);
    PrefixSnoc(a, i);
    FilterAppend(pre, [id], AddSub);
    FilterCons(id, [], AddSub);
    assert [id] + [] == [id];
    if a[i - 1] == "" {
      assert c == pre;
      ShapeAppendOperand(c, id);
    } else {
      assert c[..|c| - 1] == pre;
      ShapeReplaceLast(c, id);
      FilterAppend(pre, [a[i - 1]], AddSub);
      FilterCons(a[i - 1], [], AddSub);
    }
  }

  lemma StepPrefix(a: seq<string>, i: nat, id: string)
    requires 0 < i < |a| - 1 && id != ""
    ensures Compact(a[i - 1 := id][i := ""][i + 1 := ""][..i + 2]) == Compact(a[..i - 1]) + [id]
  {
    assert a[i - 1 := id][i := ""][i + 1 := ""][..i + 2] == a[..i - 1] + [id, "", ""];
    CompactAppend(a[..i - 1], [id, "", ""]);
    CompactSingle(id);
  }

  lemma PrefixSnoc(a: seq<string>, i: nat)
    requires 0 < i <= |a|
    ensures Compact(a[..i]) == Compact(a[..i - 1]) + (if a[i - 1] == "" then [] else [a[i - 1]])
  {
    assert a[..i] == a[..i - 1] + [a[i - 1]];
    CompactSnoc(a[..i - 1], a[i - 1]);
  }

  /** The compacted prefix after skipping a `+`/`-` and the operand after it. */
  lemma AddSubStepCompact(a: seq<string>, i: nat)
    requires 0 < i < |a| - 1 && InTier(a[i], AddSub) && Operand(a[i + 1])
    requires Shape(Compact(a[..i]))
    ensures Shape(Compact(a[..i + 2]))
    ensures Filter(Compact(a[..i + 2]), AddSub) == Filter(Compact(a[..i]), AddSub) + [a[i]]
  {
    var pair := [a[i], a[i + 1]];
    assert a[..i + 2] == a[..i] + pair;
    CompactAppend(a[..i], pair);
    assert Compact(pair) == pair by {
      assert pair[..1] == [a[i]];
    }
    ShapeAppendTerm(Compact(a[..i]), a[i], a[i + 1]);
    FilterAppend(Compact(a[..i]), pair, AddSub);
    FilterCons(a[i], [a[i + 1]], AddSub);
    FilterCons(a[i + 1], [], AddSub);
  }

  lemma PassSkip(toks: seq<string>, i: nat, tier: Tier, exprId: string, ids: nat -> string, done: seq<Task>)
    requires i < |toks| && !InTier(toks[i], tier)
    ensures PassFrom(toks, i, tier, exprId, ids, done) == PassFrom(toks, i + 1, tier, exprId, ids, done)
  {
  }

  /**
   * What the `*`/`/` scan of an alternating list `s` achieves from slot `i` on: it does not get
   * stuck, emits one task per `*`/`/` in order, and leaves slots whose compaction has the `Shape`
   * of a sum of operands carrying the `+`/`-` operators of the input.
   */
  ghost predicate MulDivScanned(r: Result<Scan, Fault>, s: seq<string>, i: nat, done: seq<Task>)
    requires i <= |s|
  {
    && r.Ok?
    && Ops(r.value.tasks) == Ops(done) + Filter(s[i..], MulDiv)
    && Shape(Compact(r.value.toks))
    && Filter(Compact(r.value.toks), AddSub) == Filter(s, AddSub)
  }

  lemma MulDivScannedStep(r: Result<Scan, Fault>, s: seq<string>, i: nat, done: seq<Task>,
                          done': seq<Task>, head: seq<string>)
    requires i + 2 <= |s| && MulDivScanned(r, s, i + 2, done')
    requires Ops(done') == Ops(done) + head
    requires Filter(s[i..], MulDiv) == head + Filter(s[i + 2..], MulDiv)
    ensures MulDivScanned(r, s, i, done)
  {
  }

  /**
   * The state of the `*`/`/` scan of an alternating list `s` before the operator slot `i`: the slots
   * from `i` on are untouched, and the compacted prefix is a sum of operands carrying the `+`/`-`
   * operators of `s[..i]`.
   */
  ghost predicate ScanReady(s: seq<string>, a: seq<string>, i: nat)
  {
    && Alternating(s) && |a| == |s| && i % 2 == 1 && i <= |s|
    && a[i..] == s[i..]
    && Shape(Compact(a[..i]))
    && Filter(Compact(a[..i]), AddSub) == Filter(s[..i], AddSub)
  }

  lemma {:induction false} MulDivPassAlternating(s: seq<string>, a: seq<string>, i: nat,
                                                 exprId: string, ids: nat -> string, done: seq<Task>)
    requires ScanReady(s, a, i)
    requires forall k :: HasLetter(ids(k))
    ensures i <= |s| && MulDivScanned(PassFrom(a, i, MulDiv, exprId, ids, done), s, i, done)
    decreases |s| - i
  {
    if i == |a| {
      MulDivDone(s, a, i, exprId, ids, done);
    } else if InTier(a[i], MulDiv) {
      var t := NewTask(ids(|done|), a[i - 1], a[i + 1], a[i], exprId);
      LetterIsOperand(t.id);
      MulDivEnter(s, a, i, t.id);
      MulDivPassAlternating(s, a[i - 1 := t.id][i := ""][i + 1 := ""], i + 2, exprId, ids, done + [t]);
      MulDivExit(s, a, i, exprId, ids, done);
    } else {
      AddSubEnter(s, a, i);
      MulDivPassAlternating(s, a, i + 2, exprId, ids, done);
      AddSubExit(s, a, i, exprId, ids, done);
    }
  }

  lemma MulDivDone(s: seq<string>, a: seq<string>, i: nat, exprId: string, ids: nat -> string, done: seq<Task>)
    requires ScanReady(s, a, i) && i == |a|
    ensures i <= |s| && MulDivScanned(PassFrom(a, i, MulDiv, exprId, ids, done), s, i, done)
  {
    assert a[..i] == a && s[..i] == s && s[i..] == [];
  }

  /** The slots after a `*`/`/` step are ready for the scan two slots on. */
  lemma MulDivEnter(s: seq<string>, a: seq<string>, i: nat, id: string)
    requires ScanReady(s, a, i) && i < |a| && InTier(a[i], MulDiv) && Operand(id)
    ensures 0 < i < |a| - 1 && a[i] == s[i]
    ensures ScanReady(s, a[i - 1 := id][i := ""][i + 1 := ""], i + 2)
  {
    assert a[i] == s[i] by {
      assert a[i..][0] == s[i..][0];
    }
    AlternatingStepFilters(s, i);
    var next := a[i - 1 := id][i := ""][i + 1 := ""];
    assert next[i + 2..] == a[i + 2..] == a[i..][2..];
    MulDivStepCompact(a, i, id);
  }

  /** The result of the `*`/`/` step at slot `i`, given what the scan achieves two slots on. */
  lemma MulDivExit(s: seq<string>, a: seq<string>, i: nat, exprId: string, ids: nat -> string, done: seq<Task>)
    requires Alternating(s) && |a| == |s| && i % 2 == 1 && 0 < i < |s| - 1
    requires a[i] == s[i] && InTier(s[i], MulDiv)
    requires var t := NewTask(ids(|done|), a[i - 1], a[i + 1], a[i], exprId);
      MulDivScanned(PassFrom(a[i - 1 := t.id][i := ""][i + 1 := ""], i + 2, MulDiv, exprId, ids, done + [t]),
                    s, i + 2, done + [t])
    ensures MulDivScanned(PassFrom(a, i, MulDiv, exprId, ids, done), s, i, done)
  {
    AlternatingStepFilters(s, i);
    NumberIsOperand(s[i + 1]);
    var t := NewTask(ids(|done|), a[i - 1], a[i + 1], a[i], exprId);
    var next := a[i - 1 := t.id][i := ""][i + 1 := ""];
    PassStep(a, i, MulDiv, exprId, ids, done);
    PassSkip(next, i + 1, MulDiv, exprId, ids, done + [t]);
    OpsSnoc(done, t);
    MulDivScannedStep(PassFrom(next, i + 2, MulDiv, exprId, ids, done + [t]), s, i, done, done + [t], [s[i]]);
  }

  /** The slots after skipping a `+`/`-` and its operand are ready for the scan two slots on. */
  lemma AddSubEnter(s: seq<string>, a: seq<string>, i: nat)
    requires ScanReady(s, a, i) && i < |a| && !InTier(a[i], MulDiv)
    ensures i + 2 <= |s| && a[i] == s[i] && a[i + 1] == s[i + 1]
    ensures ScanReady(s, a, i + 2)
  {
    assert a[i] == s[i] && a[i + 1] == s[i + 1] by {
      assert a[i..][0] == s[i..][0] && a[i..][1] == s[i..][1];
    }
    AlternatingStepFilters(s, i);
    NumberIsOperand(s[i + 1]);
    assert a[i + 2..] == a[i..][2..];
    AddSubStepCompact(a, i);
  }

  /** The result of skipping a `+`/`-` at slot `i`, given what the scan achieves two slots on. */
  lemma AddSubExit(s: seq<string>, a: seq<string>, i: nat, exprId: string, ids: nat -> string, done: seq<Task>)
    requires Alternating(s) && |a| == |s| && i % 2 == 1 && i + 2 <= |s|
    requires a[i] == s[i] && a[i + 1] == s[i + 1] && !InTier(s[i], MulDiv)
    requires MulDivScanned(PassFrom(a, i + 2, MulDiv, exprId, ids, done), s, i + 2, done)
    ensures MulDivScanned(PassFrom(a, i, MulDiv, exprId, ids, done), s, i, done)
  {
    AlternatingStepFilters(s, i);
    NumberIsOperand(s[i + 1]);
    PassSkip(a, i, MulDiv, exprId, ids, done);
    PassSkip(a, i + 1, MulDiv, exprId, ids, done);
    assert Ops(done) == Ops(done) + [];
    MulDivScannedStep(PassFrom(a, i + 2, MulDiv, exprId, ids, done), s, i, done, done, []);
  }

  lemma {:induction false} OperatorCount(s: seq<string>, m: nat)
    requires Alternating(s) && m <= |s|
    ensures |Filter(s[..m], MulDiv)| + |Filter(s[..m], AddSub)| == m / 2
  {
    if m > 0 {
      OperatorCount(s, m - 1);
      assert s[..m] == s[..m - 1] + [s[m - 1]];
      FilterAppend(s[..m - 1], [s[m - 1]], MulDiv);
      FilterAppend(s[..m - 1], [s[m - 1]], AddSub);
      FilterCons(s[m - 1], [], MulDiv);
      FilterCons(s[m - 1], [], AddSub);
      if (m - 1) % 2 == 0 {
        NumberIsOperand(s[m - 1]);
      }
    }
  }

  /**
   * For a well-formed token list every operator yields exactly one task, all `*`/`/` tasks come
   * before all `+`/`-` tasks, and each task carries the operator token it came from.
   */
  lemma OneTaskPerOperator(tokens: seq<string>, exprId: string, ids: nat -> string)
    requires Alternating(tokens)
    requires forall k :: HasLetter(ids(k))
    ensures Decompose(tokens, exprId, ids).Ok?
    ensures Ops(Decompose(tokens, exprId, ids).value) == Filter(tokens, MulDiv) + Filter(tokens, AddSub)
    ensures |Decompose(tokens, exprId, ids).value| == |tokens| / 2
  {
    FirstScanAlternating(tokens, exprId, ids);
    var s1 := PassFrom(tokens, 0, MulDiv, exprId, ids, []).value;
    var c := Compact(s1.toks);
    ShapeSeparated(c);
    SeparatedPass(c, 0, AddSub, exprId, ids, s1.tasks);
    assert c[0..] == c;
    var r2 := PassFrom(c, 0, AddSub, exprId, ids, s1.tasks);
    assert Decompose(tokens, exprId, ids) == Ok(r2.value.tasks);
    OperatorCount(tokens, |tokens|);
    assert tokens[..|tokens|] == tokens;
  }

  /** The `*`/`/` scan of an alternating list, from its first slot. */
  lemma FirstScanAlternating(tokens: seq<string>, exprId: string, ids: nat -> string)
    requires Alternating(tokens)
    requires forall k :: HasLetter(ids(k))
    ensures var r1 := PassFrom(tokens, 0, MulDiv, exprId, ids, []);
      && r1.Ok?
      && Ops(r1.value.tasks) == Filter(tokens, MulDiv)
      && Shape(Compact(r1.value.toks))
      && Filter(Compact(r1.value.toks), AddSub) == Filter(tokens, AddSub)
  {
    ScanStart(tokens);
    PassSkip(tokens, 0, MulDiv, exprId, ids, []);
    MulDivPassAlternating(tokens, tokens, 1, exprId, ids, []);
    assert tokens[0..] == tokens;
  }

  /** The first slot of an alternating list is a number: the scan starts ready at slot 1. */
  lemma ScanStart(tokens: seq<string>)
    requires Alternating(tokens)
    ensures !InTier(tokens[0], MulDiv)
    ensures ScanReady(tokens, tokens, 1)
    ensures Filter(tokens[1..], MulDiv) == Filter(tokens, MulDiv)
  {
    NumberIsOperand(tokens[0]);
    assert tokens[..1] == [tokens[0]];
    assert Compact([tokens[0]]) == [tokens[0]] by {
      assert [tokens[0]][..0] == [];
    }
    FilterCons(tokens[0], [], AddSub);
    assert tokens == [tokens[0]] + tokens[1..];
    FilterCons(tokens[0], tokens[1..], MulDiv);
  }

  // ---------------------------------------------------------------------------------------------
  // Backward references only

  /** An operand slot holds an input token, a blank, or the id of one of the first `k` tasks. */
  ghost predicate Traceable(x: string, tokens: seq<string>, ids: nat -> string, k: nat)
  {
    x == "" || x in tokens || exists j :: 0 <= j < k && x == ids(j)
  }

  /** The tasks emitted so far: ids from the supply in order, operators as operations, backward operands. */
  ghost predicate EmittedFrom(ts: seq<Task>, tokens: seq<string>, exprId: string, ids: nat -> string)
  {
    forall k :: 0 <= k < |ts| ==>
      && ts[k].id == ids(k)
      && ts[k].expressionId == exprId
      && ts[k].result == None
      && IsOperator(ts[k].operation)
      && Traceable(ts[k].arg1, tokens, ids, k)
      && Traceable(ts[k].arg2, tokens, ids, k)
  }

  ghost predicate SlotsTraceable(toks: seq<string>, tokens: seq<string>, ids: nat -> string, k: nat)
  {
    forall x :: x in toks ==> Traceable(x, tokens, ids, k)
  }

  lemma TraceableGrows(x: string, tokens: seq<string>, ids: nat -> string, k: nat)
    requires Traceable(x, tokens, ids, k)
    ensures Traceable(x, tokens, ids, k + 1)
  {
    if x != "" && x !in tokens {
      var j :| 0 <= j < k && x == ids(j);
      assert 0 <= j < k + 1;
    }
  }

  lemma {:induction false} PassTraceable(toks: seq<string>, i: nat, tier: Tier, exprId: string,
                                         ids: nat -> string, done: seq<Task>, tokens: seq<string>)
    requires EmittedFrom(done, tokens, exprId, ids)
    requires SlotsTraceable(toks, tokens, ids, |done|)
    ensures var r := PassFrom(toks, i, tier, exprId, ids, done);
      r.Ok? ==> (EmittedFrom(r.value.tasks, tokens, exprId, ids) &&
                 SlotsTraceable(r.value.toks, tokens, ids, |r.value.tasks|))
    decreases |toks| - i
  {
    if i < |toks| {
      if !InTier(toks[i], tier) {
        PassSkip(toks, i, tier, exprId, ids, done);
        PassTraceable(toks, i + 1, tier, exprId, ids, done, tokens);
      } else if 0 < i < |toks| - 1 {
        var t := NewTask(ids(|done|), toks[i - 1], toks[i + 1], toks[i], exprId);
        var next := toks[i - 1 := t.id][i := ""][i + 1 := ""];
        PassStep(toks, i, tier, exprId, ids, done);
        assert toks[i - 1] in toks && toks[i + 1] in toks;
        var done' := done + [t];
        assert EmittedFrom(done', tokens, exprId, ids) by {
          forall k | 0 <= k < |done'|
            ensures Traceable(done'[k].arg1, tokens, ids, k) && Traceable(done'[k].arg2, tokens, ids, k)
          {
            if k < |done| {
              assert done'[k] == done[k];
            }
          }
        }
        assert SlotsTraceable(next, tokens, ids, |done'|) by {
          forall x | x in next ensures Traceable(x, tokens, ids, |done| + 1) {
            var j :| 0 <= j < |next| && next[j] == x;
            if j == i - 1 {
              assert x == ids(|done|);
            } else if j != i && j != i + 1 {
              assert x == toks[j] && x in toks;
              TraceableGrows(x, tokens, ids, |done|);
            }
          }
        }
        PassTraceable(next, i + 1, tier, exprId, ids, done', tokens);
      }
    }
  }

  /** Every task emitted by a decomposition names only input tokens, blanks and earlier tasks. */
  lemma DecomposeTraceable(tokens: seq<string>, exprId: string, ids: nat -> string)
    ensures Decompose(tokens, exprId, ids).Ok? ==> EmittedFrom(Decompose(tokens, exprId, ids).value, tokens, exprId, ids)
  {
    PassTraceable(tokens, 0, MulDiv, exprId, ids, [], tokens);
    var r1 := PassFrom(tokens, 0, MulDiv, exprId, ids, []);
    if r1.Ok? {
      PassTraceable(Compact(r1.value.toks), 0, AddSub, exprId, ids, r1.value.tasks, tokens);
    }
  }

  /**
   * With distinct lettered ids that never occur among the input tokens, an operand that names a
   * task names one emitted earlier: the task graph is acyclic.
   */
  lemma ReferencesPointBackward(tokens: seq<string>, exprId: string, ids: nat -> string)
    requires forall k :: HasLetter(ids(k))
    requires forall j, k :: j != k ==> ids(j) != ids(k)
    requires forall k :: ids(k) !in tokens
    ensures var r := Decompose(tokens, exprId, ids);
      r.Ok? ==> forall k, j ::
        (0 <= k < |r.value| && 0 <= j < |r.value| &&
         (r.value[k].arg1 == r.value[j].id || r.value[k].arg2 == r.value[j].id)) ==> j < k
  {
    DecomposeTraceable(tokens, exprId, ids);
    var r := Decompose(tokens, exprId, ids);
    if r.Ok? {
      var ts := r.value;
      forall k, j | 0 <= k < |ts| && 0 <= j < |ts| && (ts[k].arg1 == ts[j].id || ts[k].arg2 == ts[j].id)
        ensures j < k
      {
        var x := if ts[k].arg1 == ts[j].id then ts[k].arg1 else ts[k].arg2;
        assert Traceable(x, tokens, ids, k) && x == ids(j);
        LetterTextIsNoOperator(ids(j));
        var j' :| 0 <= j' < k && x == ids(j');
      }
    }
  }

  // ---------------------------------------------------------------------------------------------
  // Quirks of the in-place scans

  lemma CompactSnoc(s: seq<string>, x: string)
    ensures Compact(s + [x]) == Compact(s) + (if x == "" then [] else [x])
  {
    assert (s + [x])[..|s|] == s;
  }

  lemma {:induction false} CompactNoBlank(s: seq<string>)
    requires forall k :: 0 <= k < |s| ==> s[k] != ""
    ensures Compact(s) == s
  {
    if s != [] {
      var p := s[..|s| - 1];
      assert forall k :: 0 <= k < |p| ==> p[k] == s[k];
      CompactNoBlank(p);
      CompactSnoc(p, s[|s| - 1]);
      assert p + [s[|s| - 1]] == s;
    }
  }

  /**
   * `a + b + c`: the second `+` takes the slot the first one blanked as its left operand, so the
   * last (root) task adds the blank to `c`.
   */
  lemma ChainedAdditionTakesBlank(a: string, b: string, c: string, exprId: string, ids: nat -> string)
    requires IsNumber(a) && IsNumber(b) && IsNumber(c) && HasLetter(ids(0))
    ensures Decompose([a, "+", b, "+", c], exprId, ids)
         == Ok([NewTask(ids(0), a, b, "+", exprId), NewTask(ids(1), "", c, "+", exprId)])
  {
    var s := [a, "+", b, "+", c];
    NumberIsOperand(a);
    NumberIsOperand(b);
    NumberIsOperand(c);
    LetterIsOperand(ids(0));
    assert PassFrom(s, 0, MulDiv, exprId, ids, []) == Ok(Scan(s, [])) by {
      PassSkip(s, 0, MulDiv, exprId, ids, []);
      PassSkip(s, 1, MulDiv, exprId, ids, []);
      PassSkip(s, 2, MulDiv, exprId, ids, []);
      PassSkip(s, 3, MulDiv, exprId, ids, []);
      PassSkip(s, 4, MulDiv, exprId, ids, []);
    }
    CompactNoBlank(s);
    var t0 := NewTask(ids(0), a, b, "+", exprId);
    var t1 := NewTask(ids(1), "", c, "+", exprId);
    var s1 := [ids(0), "", "", "+", c];
    var s2 := [ids(0), "", ids(1), "", ""];
    assert PassFrom(s, 0, AddSub, exprId, ids, []) == Ok(Scan(s2, [t0, t1])) by {
      PassSkip(s, 0, AddSub, exprId, ids, []);
      PassStep(s, 1, AddSub, exprId, ids, []);
      assert s[0 := ids(0)][1 := ""][2 := ""] == s1;
      assert [] + [t0] == [t0];
      PassSkip(s1, 2, AddSub, exprId, ids, [t0]);
      PassStep(s1, 3, AddSub, exprId, ids, [t0]);
      assert s1[2 := ids(1)][3 := ""][4 := ""] == s2;
      assert [t0] + [t1] == [t0, t1];
      PassSkip(s2, 4, AddSub, exprId, ids, [t0, t1]);
    }
  }

  /**
   * `a * b * c`: the same happens in the first scan; the first product is then referenced by no
   * task and the root multiplies the blank by `c`.
   */
  lemma ChainedProductTakesBlank(a: string, b: string, c: string, exprId: string, ids: nat -> string)
    requires IsNumber(a) && IsNumber(b) && IsNumber(c) && HasLetter(ids(0)) && HasLetter(ids(1))
    ensures Decompose([a, "*", b, "*", c], exprId, ids)
         == Ok([NewTask(ids(0), a, b, "*", exprId), NewTask(ids(1), "", c, "*", exprId)])
  {
    var s := [a, "*", b, "*", c];
    NumberIsOperand(a);
    var t0 := NewTask(ids(0), a, b, "*", exprId);
    var t1 := NewTask(ids(1), "", c, "*", exprId);
    var s2 := [ids(0), "", ids(1), "", ""];
    ProductScan(a, b, c, exprId, ids);
    var c2 := [ids(0), ids(1)];
    CompactOfChain(ids(0), ids(1));
    assert PassFrom(c2, 0, AddSub, exprId, ids, [t0, t1]) == Ok(Scan(c2, [t0, t1])) by {
      LetterIsOperand(ids(0));
      LetterIsOperand(ids(1));
      PassSkip(c2, 0, AddSub, exprId, ids, [t0, t1]);
      PassSkip(c2, 1, AddSub, exprId, ids, [t0, t1]);
    }
  }

  lemma ProductScan(a: string, b: string, c: string, exprId: string, ids: nat -> string)
    requires IsNumber(a) && HasLetter(ids(0)) && HasLetter(ids(1))
    ensures PassFrom([a, "*", b, "*", c], 0, MulDiv, exprId, ids, [])
         == Ok(Scan([ids(0), "", ids(1), "", ""],
                    [NewTask(ids(0), a, b, "*", exprId), NewTask(ids(1), "", c, "*", exprId)]))
  {
    var s := [a, "*", b, "*", c];
    NumberIsOperand(a);
    var t0 := NewTask(ids(0), a, b, "*", exprId);
    var t1 := NewTask(ids(1), "", c, "*", exprId);
    var s1 := [ids(0), "", "", "*", c];
    var s2 := [ids(0), "", ids(1), "", ""];
    PassSkip(s, 0, MulDiv, exprId, ids, []);
    PassStep(s, 1, MulDiv, exprId, ids, []);
    assert s[0 := ids(0)][1 := ""][2 := ""] == s1;
    assert [] + [t0] == [t0];
    PassSkip(s1, 2, MulDiv, exprId, ids, [t0]);
    PassStep(s1, 3, MulDiv, exprId, ids, [t0]);
    assert s1[2 := ids(1)][3 := ""][4 := ""] == s2;
    assert [t0] + [t1] == [t0, t1];
    PassSkip(s2, 4, MulDiv, exprId, ids, [t0, t1]);
  }

  lemma CompactOfChain(x: string, y: string)
    requires x != "" && y != ""
    ensures Compact([x, "", y, "", ""]) == [x, y]
  {
    CompactSnoc([], x);
    assert [] + [x] == [x];
    CompactSnoc([x], "");
    assert [x] + [""] == [x, ""];
    CompactSnoc([x, ""], y);
    assert [x, ""] + [y] == [x, "", y];
    CompactSnoc([x, "", y], "");
    assert [x, "", y] + [""] == [x, "", y, ""];
    CompactSnoc([x, "", y, ""], "");
    assert [x, "", y, ""] + [""] == [x, "", y, "", ""];
  }

  /** An operator in the first slot has no left neighbour: the handler faults before storing any task. */
  lemma LeadingOperatorIsMalformed(tokens: seq<string>, exprId: string, ids: nat -> string)
    requires |tokens| > 0 && InTier(tokens[0], MulDiv)
    ensures Decompose(tokens, exprId, ids) == Err(MalformedExpression)
  {
  }

  /** `a +`: the trailing operator has no right neighbour. */
  lemma TrailingOperatorIsMalformed(a: string, op: string, exprId: string, ids: nat -> string)
    requires IsNumber(a) && InTier(op, AddSub)
    ensures Decompose([a, op], exprId, ids) == Err(MalformedExpression)
  {
    NumberIsOperand(a);
    PassSkip([a, op], 0, MulDiv, exprId, ids, []);
    PassSkip([a, op], 1, MulDiv, exprId, ids, []);
    CompactNoBlank([a, op]);
    PassSkip([a, op], 0, AddSub, exprId, ids, []);
  }

  /** The text `a**` is accepted and tokenized as a numeral and two separate operators. */
  lemma DoubleStarText(a: string)
    requires IsNumber(a)
    ensures IsValidExpression(a + "**") && Tokenize(a + "**") == [a, "*", "*"]
  {
    var s := a + "**";
    forall i | 0 <= i < |s| ensures IsAllowed(s[i]) {
      if i < |a| {
        assert s[i] == a[i];
      }
    }
    TokenizeNumberRun(a, "**");
    assert Tokenize("**") == ["*", "*"] by {
      assert "**"[1..] == "*";
      assert "*"[1..] == [];
    }
  }

  /** `a * *` is not malformed: the second `*` is consumed as the first one's right operand. */
  lemma OperatorTakenAsOperand(a: string, exprId: string, ids: nat -> string)
    requires IsNumber(a) && HasLetter(ids(0))
    ensures IsValidExpression(a + "**") && Tokenize(a + "**") == [a, "*", "*"]
    ensures Decompose([a, "*", "*"], exprId, ids) == Ok([NewTask(ids(0), a, "*", "*", exprId)])
  {
    DoubleStarText(a);
    var t0 := NewTask(ids(0), a, "*", "*", exprId);
    OperatorOperandScan(a, exprId, ids);
    CompactSingle(ids(0));
    LetterIsOperand(ids(0));
    assert PassFrom([ids(0)], 0, AddSub, exprId, ids, [t0]) == Ok(Scan([ids(0)], [t0])) by {
      PassSkip([ids(0)], 0, AddSub, exprId, ids, [t0]);
    }
  }

  lemma OperatorOperandScan(a: string, exprId: string, ids: nat -> string)
    requires IsNumber(a)
    ensures PassFrom([a, "*", "*"], 0, MulDiv, exprId, ids, [])
         == Ok(Scan([ids(0), "", ""], [NewTask(ids(0), a, "*", "*", exprId)]))
  {
    var s := [a, "*", "*"];
    NumberIsOperand(a);
    var t0 := NewTask(ids(0), a, "*", "*", exprId);
    var s1 := [ids(0), "", ""];
    PassSkip(s, 0, MulDiv, exprId, ids, []);
    PassStep(s, 1, MulDiv, exprId, ids, []);
    assert s[0 := ids(0)][1 := ""][2 := ""] == s1;
    assert [] + [t0] == [t0];
    PassSkip(s1, 2, MulDiv, exprId, ids, [t0]);
  }

  lemma CompactSingle(x: string)
    requires x != ""
    ensures Compact([x, "", ""]) == [x]
  {
    CompactSnoc([], x);
    assert [] + [x] == [x];
    CompactSnoc([x], "");
    assert [x] + [""] == [x, ""];
    CompactSnoc([x, ""], "");
    assert [x, ""] + [""] == [x, "", ""];
  }
}
