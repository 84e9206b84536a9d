// Database.transaction of worker/db/sqlite-adapter.js: nested calls compiled to BEGIN / SAVEPOINT /
// RELEASE / ROLLBACK TO, against a recursive meaning that knows nothing of statements.
module Transactions {
  import opened Common
  import opened Text

  type Data = map<string, int>

  // What code running against a handle can do. A Tx is db.transaction(fn)() with body fn; opens and
  // closes say whether the opening statement and the closing COMMIT or RELEASE go through. Try is
  // JavaScript's try/catch.
  datatype Program =
    | Skip
    | Write(key: string, value: int)
    | Throw
    | Then(first: Program, second: Program)
    | Try(body: Program)
    | Tx(opens: bool, body: Program, closes: bool)

  datatype Result = Result(data: Data, thrown: bool)

  // ---------------------------------------------------------------- the meaning

  // A transaction that throws, or cannot open or close, restores its entry state and throws.
  function Eval(p: Program, data: Data): Result {
    match p
    case Skip => Result(data, false)
    case Write(k, v) => Result(data[k := v], false)
    case Throw => Result(data, true)
    case Then(a, b) =>
      var r := Eval(a, data);
      if r.thrown then r else Eval(b, r.data)
    case Try(b) => Result(Eval(b, data).data, false)
    case Tx(opens, b, closes) =>
      var r := Eval(b, data);
      if opens && closes && !r.thrown then r else Result(data, true)
  }

  // The writes that last: those with no throwing transaction around them.
  function Throws(p: Program): bool {
    match p
    case Skip => false
    case Write(_, _) => false
    case Throw => true
    case Then(a, b) => Throws(a) || Throws(b)
    case Try(_) => false
    case Tx(opens, b, closes) => !opens || !closes || Throws(b)
  }

  function Lasting(p: Program): seq<(string, int)> {
    match p
    case Skip => []
    case Write(k, v) => [(k, v)]
    case Throw => []
    case Then(a, b) => Lasting(a) + (if Throws(a) then [] else Lasting(b))
    case Try(b) => Lasting(b)
    case Tx(_, b, _) => if Throws(p) then [] else Lasting(b)
  }

  function ApplyAll(writes: seq<(string, int)>, data: Data): Data {
    if writes == [] then data else ApplyAll(writes[1..], data[writes[0].0 := writes[0].1])
  }

  lemma {:induction false} ApplyConcat(a: seq<(string, int)>, b: seq<(string, int)>, data: Data)
    ensures ApplyAll(a + b, data) == ApplyAll(b, ApplyAll(a, data))
  {
    if a == [] {
      assert a + b == b;
    } else {
      ApplyConcat(a[1..], b, data[a[0].0 := a[0].1]);
      assert (a + b)[1..] == a[1..] + b;
    }
  }

  // The database ends as if only the lasting writes had run, in order and with no transactions.
  lemma {:induction false} OnlyLastingWritesRemain(p: Program, data: Data)
    ensures Eval(p, data) == Result(ApplyAll(Lasting(p), data), Throws(p))
  {
    match p
    case Skip =>
    case Write(k, v) =>
      assert ApplyAll([], data[k := v]) == data[k := v];
    case Throw =>
    case Then(a, b) =>
      OnlyLastingWritesRemain(a, data);
      OnlyLastingWritesRemain(b, Eval(a, data).data);
      ApplyConcat(Lasting(a), if Throws(a) then [] else Lasting(b), data);
    case Try(b) =>
      OnlyLastingWritesRemain(b, data);
    case Tx(opens, b, closes) =>
      OnlyLastingWritesRemain(b, data);
  }

  // ---------------------------------------------------------------- the engine and the adapter

  datatype Savepoint = Savepoint(name: string, data: Data)

  // sp_${depth}
  function SavepointName(depth: nat): string {
    "sp_" + Decimal(depth)
  }

  // The most recent savepoint of that name, counted from the bottom of the stack.
  function FindSavepoint(stack: seq<Savepoint>, name: string): (r: Option<nat>)
    ensures r.Some? ==> r.value < |stack| && stack[r.value].name == name
                        && forall i :: r.value < i < |stack| ==> stack[i].name != name
    ensures r.None? ==> forall i :: 0 <= i < |stack| ==> stack[i].name != name
  {
    if stack == [] then None
    else if stack[|stack| - 1].name == name then Some(|stack| - 1)
    else FindSavepoint(stack[..|stack| - 1], name)
  }

  class Database {
    // The engine: what this connection sees, what other connections see, the state at BEGIN if a
    // transaction is open, and the savepoints inside it.
    var current: Data
    var durable: Data
    var begun: Option<Data>
    var stack: seq<Savepoint>
    // The adapter's nesting counter.
    var txDepth: nat

    // In a transaction at depth d the savepoints are sp_1 .. sp_{d-1}; outside, every write is durable.
    ghost predicate Valid()
      reads this
    {
      && (txDepth == 0 <==> begun.None?)
      && |stack| == (if txDepth == 0 then 0 else txDepth - 1)
      && (forall i :: 0 <= i < |stack| ==> stack[i].name == SavepointName(i + 1))
      && (txDepth == 0 ==> durable == current)
    }

    constructor ()
      ensures Valid() && txDepth == 0 && current == map[]
    {
      current, durable, begun, stack, txDepth := map[], map[], None, [], 0;
    }

    method Begin(opens: bool) returns (ok: bool)
      modifies this`begun
      ensures ok == (opens && old(begun).None?)
      ensures begun == if ok then Some(current) else old(begun)
    {
      ok := opens && begun.None?;
      if ok { begun := Some(current); }
    }

    method Commit(closes: bool) returns (ok: bool)
      modifies this`begun, this`durable, this`stack
      ensures ok == (closes && old(begun).Some?)
      ensures ok ==> begun == None && durable == current && stack == []
      ensures !ok ==> begun == old(begun) && durable == old(durable) && stack == old(stack)
    {
      ok := closes && begun.Some?;
      if ok { begun, durable, stack := None, current, []; }
    }

    method Rollback() returns (ok: bool)
      modifies this`begun, this`current, this`stack
      ensures ok == old(begun).Some?
      ensures ok ==> begun == None && current == old(begun).value && stack == []
      ensures !ok ==> begun == old(begun) && current == old(current) && stack == old(stack)
    {
      ok := begun.Some?;
      if ok { begun, current, stack := None, begun.value, []; }
    }

    method OpenSavepoint(name: string, opens: bool) returns (ok: bool)
      modifies this`stack
      ensures ok == opens
      ensures stack == if ok then old(stack) + [Savepoint(name, current)] else old(stack)
    {
      ok := opens;
      if ok { stack := stack + [Savepoint(name, current)]; }
    }

    // RELEASE drops the named savepoint and everything above it.
    method Release(name: string, closes: bool) returns (ok: bool)
      modifies this`stack
      ensures ok == (closes && FindSavepoint(old(stack), name).Some?)
      ensures stack == if ok then old(stack)[..FindSavepoint(old(stack), name).value] else old(stack)
    {
      var at := FindSavepoint(stack, name);
      ok := closes && at.Some?;
      if ok { stack := stack[..at.value]; }
    }

    // ROLLBACK TO restores the named savepoint's state and keeps it on the stack.
    method RollbackTo(name: string) returns (ok: bool)
      modifies this`stack, this`current
      ensures ok == FindSavepoint(old(stack), name).Some?
      ensures ok ==> var at := FindSavepoint(old(stack), name).value;
                     stack == old(stack)[..at + 1] && current == old(stack)[at].data
      ensures !ok ==> stack == old(stack) && current == old(current)
    {
      var at := FindSavepoint(stack, name);
      ok := at.Some?;
      if ok {
        current := stack[at.value].data;
        stack := stack[..at.value + 1];
      }
    }

    method Put(key: string, value: int)
      requires Valid()
      modifies this`current, this`durable
      ensures Valid() && current == old(current)[key := value]
      ensures durable == if begun.None? then current else old(durable)
    {
      current := current[key := value];
      if begun.None? { durable := current; }
    }

    // Running any program, at any depth, leaves the data its meaning gives, the counter and the
    // savepoint stack as they were, and nothing half-done visible to other connections.
    method Run(p: Program) returns (thrown: bool)
      requires Valid()
      modifies this
      ensures Valid()
      ensures Result(current, thrown) == Eval(p, old(current))
      ensures txDepth == old(txDepth) && stack == old(stack) && begun == old(begun)
      ensures old(txDepth) > 0 ==> durable == old(durable)
      decreases p, 1
    {
      match p
      case Skip => thrown := false;
      case Write(k, v) =>
        Put(k, v);
        thrown := false;
      case Throw => thrown := true;
      case Then(a, b) =>
        thrown := Run(a);
        if !thrown {
          thrown := Run(b);
        }
      case Try(b) =>
        thrown := Run(b);
        thrown := false;
      case Tx(opens, b, closes) =>
        thrown := Transaction(opens, b, closes);
    }

    method Transaction(opens: bool, body: Program, closes: bool) returns (thrown: bool)
      requires Valid()
      modifies this
      ensures Valid()
      ensures Result(current, thrown) == Eval(Tx(opens, body, closes), old(current))
      ensures txDepth == old(txDepth) && stack == old(stack) && begun == old(begun)
      ensures old(txDepth) > 0 ==> durable == old(durable)
      decreases body, 2
    {
      hide FindSavepoint, SavepointName;
      var isNested := txDepth > 0;
      var name := if isNested then SavepointName(txDepth) else "";
      var ok;
      if isNested {
        ok := OpenSavepoint(name, opens);
      } else {
        ok := Begin(opens);
      }
      if !ok { return true; }
      if isNested {
        TopOfStack(stack, txDepth);
      }
      txDepth := txDepth + 1;
      thrown := Run(body);
      if !thrown {
        if isNested {
          ok := Release(name, closes);
        } else {
          ok := Commit(closes);
        }
        thrown := !ok;
      }
      if thrown {
        if isNested {
          ok := RollbackTo(name);
          if ok {
            ok := Release(name, true);
          }
        } else {
          ok := Rollback();
        }
      }
      txDepth := txDepth - 1;
    }
  }

  // sp_d on top of sp_1 .. sp_{d-1} is the savepoint its name finds.
  lemma TopOfStack(stack: seq<Savepoint>, depth: nat)
    requires |stack| == depth > 0 && stack[depth - 1].name == SavepointName(depth)
    ensures FindSavepoint(stack, SavepointName(depth)) == Some(depth - 1)
  {
  }
}
