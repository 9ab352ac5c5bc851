/** Migration plans, and the check a plan must pass before it runs
    (internal/schemastep/classify.go). What a regular expression says of one
    statement is a parameter. */
module SchemaStep {
  import opened Splitter
  import opened SplitterLaws

  datatype StepKind = TxDDL | GuardedDDL | ConcurrentIndex | BatchedDML

  datatype Step = Step(n: int, name: string, kind: StepKind, sql: string, index: string)

  datatype LockClass = ReaderSafe | MetadataAEL | RewriteAEL | Unknown

  /** How statements are classified, and the tables plane-1 reads. */
  datatype Classifier = Classifier(classify: string -> (LockClass, string), concurrently: string -> bool, readSet: set<string>)

  predicate OnReadSet(c: Classifier, stmt: string) {
    var table := c.classify(stmt).1;
    table != "" && table in c.readSet
  }

  /** A brief exclusive lock on the read set needs a guarded step; a long or an
      unknown one, or one whose table is unknown, is refused. */
  predicate StatementAllowed(c: Classifier, kind: StepKind, stmt: string) {
    match c.classify(stmt).0
    case ReaderSafe => true
    case MetadataAEL => c.classify(stmt).1 != "" && (OnReadSet(c, stmt) ==> kind == GuardedDDL)
    case RewriteAEL => c.classify(stmt).1 != "" && !OnReadSet(c, stmt)
    case Unknown => c.classify(stmt).1 != "" && !OnReadSet(c, stmt)
  }

  predicate SqlAllowed(c: Classifier, kind: StepKind, sql: string) {
    match kind
    case BatchedDML => true
    case ConcurrentIndex => forall stmt :: stmt in Split(sql) ==> c.concurrently(stmt)
    case _ => forall stmt :: stmt in Split(sql) ==> StatementAllowed(c, kind, stmt)
  }

  /** What a statement outside an index build may do: take no lock a reader would
      notice, or one on a known table, and on the read set only a brief one under
      the guard. */
  predicate Harmless(c: Classifier, kind: StepKind, stmt: string) {
    var (lock, table) := c.classify(stmt);
    lock == ReaderSafe || (table != "" && (table in c.readSet ==> lock == MetadataAEL && kind == GuardedDDL))
  }

  /** A script without text, one that only builds indexes concurrently, or one whose
      every statement is harmless. */
  predicate AllHarmless(c: Classifier, kind: StepKind, sql: string) {
    if kind == BatchedDML then true
    else if kind == ConcurrentIndex then forall stmt :: stmt in Split(sql) ==> c.concurrently(stmt)
    else forall stmt :: stmt in Split(sql) ==> Harmless(c, kind, stmt)
  }

  method CheckSql(c: Classifier, kind: StepKind, sql: string) returns (ok: bool)
    ensures ok <==> SqlAllowed(c, kind, sql)
    ensures ok <==> AllHarmless(c, kind, sql)
  {
    if kind == BatchedDML { return true; }
    var stmts := SplitStatements(sql);
    for i := 0 to |stmts|
      invariant forall j :: 0 <= j < i ==>
        if kind == ConcurrentIndex then c.concurrently(stmts[j]) else StatementAllowed(c, kind, stmts[j])
    {
      var stmt := stmts[i];
      assert stmt in Split(sql);
      if kind == ConcurrentIndex {
        if !c.concurrently(stmt) { return false; }
        continue;
      }
      var (lock, table) := c.classify(stmt);
      var inSet := table != "" && table in c.readSet;
      match lock {
        case ReaderSafe =>
        case MetadataAEL =>
          if table == "" { return false; }
          if inSet && kind != GuardedDDL { return false; }
        case RewriteAEL =>
          if table == "" { return false; }
          if inSet { return false; }
        case Unknown =>
          if table == "" || inSet { return false; }
      }
    }
    return true;
  }

  /** The whole plan: every statement of every step must be allowed. */
  method Check(c: Classifier, steps: seq<Step>) returns (ok: bool)
    ensures ok <==> forall st :: st in steps ==> SqlAllowed(c, st.kind, st.sql)
    ensures ok <==> forall st :: st in steps ==> AllHarmless(c, st.kind, st.sql)
  {
    for i := 0 to |steps|
      invariant forall j :: 0 <= j < i ==> SqlAllowed(c, steps[j].kind, steps[j].sql) && AllHarmless(c, steps[j].kind, steps[j].sql)
    {
      ok := CheckSql(c, steps[i].kind, steps[i].sql);
      if !ok {
        assert steps[i] in steps;
        return;
      }
    }
    return true;
  }

  /** A statement cannot hide behind another: a script is allowed exactly when the
      parts on both sides of a top-level separator are. */
  lemma {:induction false} CheckIsPerStatement(c: Classifier, kind: StepKind, a: string, b: string)
    requires TopLevel(a)
    ensures SqlAllowed(c, kind, a + ";" + b) <==> SqlAllowed(c, kind, a) && SqlAllowed(c, kind, b)
  {
    SplitAtSeparator(a, b);
    var all := Split(a) + Split(b);
    assert forall stmt :: stmt in all <==> stmt in Split(a) || stmt in Split(b);
  }
}
