/**
 * The driver of task2/matrix_mul that was being moved onto the worker pool
 * (parallel.c). As written, `request_multiplication` computes each product
 * itself, in the caller, and the pool is created with no threads, so it
 * never runs a task.
 */
module Parallel {
  import opened Matrices
  import opened Sequential
  import opened WorkerPool

  /**
   * `request_multiplication`: its body is the same dimension check and the
   * same loops as `multiply` in sequential.c, so it computes the same
   * product or fails on the same inputs.
   */
  method RequestMultiplication(a: Matrix, b: Matrix, p: Matrix) returns (ok: bool)
    requires a.Valid() && b.Valid() && p.Valid()
    requires p.data != a.data && p.data != b.data
    modifies p.data
    ensures ok <==> Conformable(a, b, p)
    ensures !ok ==> unchanged(p.data)
    ensures ok ==> IsProduct(a.Value(), b.Value(), p.Value())
  {
    ok := Multiply(a, b, p);
  }

  /**
   * `main` from the pool's creation to its join: a pool with no threads,
   * one `request_multiplication` per operation in index order, then the
   * stop request and the join. The stop request queues no KILL, the join
   * waits for no worker, and every product is computed by the caller.
   */
  method Run(lhs: seq<Matrix>, rhs: seq<Matrix>, products: seq<Matrix>) returns (ok: bool, pool: Pool<()>)
    requires |lhs| == |rhs| == |products|
    requires forall i :: 0 <= i < |products| ==> lhs[i].Valid() && rhs[i].Valid() && products[i].Valid()
    requires forall i, j :: 0 <= i < |products| && 0 <= j < |products| ==>
               products[i].data != lhs[j].data && products[i].data != rhs[j].data &&
               (i != j ==> products[i].data != products[j].data)
    modifies set i | 0 <= i < |products| :: products[i].data
    ensures ok <==> forall i :: 0 <= i < |products| ==> Conformable(lhs[i], rhs[i], products[i])
    ensures ok ==> forall i :: 0 <= i < |products| ==> IsProduct(lhs[i].Value(), rhs[i].Value(), products[i].Value())
    ensures ok ==> pool.threadCount == 0 && pool.workers == [] && pool.executed == [] && pool.queue.Contents() == []
  {
    pool := new Pool(0);
    ok := RequestAll(lhs, rhs, products);
    if ok {
      pool.RequestStop();
      pool.Join([]);
    }
  }

  /** The request loop of `main`: one `request_multiplication` per operation, in index order. */
  method RequestAll(lhs: seq<Matrix>, rhs: seq<Matrix>, products: seq<Matrix>) returns (ok: bool)
    requires |lhs| == |rhs| == |products|
    requires forall i :: 0 <= i < |products| ==> lhs[i].Valid() && rhs[i].Valid() && products[i].Valid()
    requires forall i, j :: 0 <= i < |products| && 0 <= j < |products| ==>
               products[i].data != lhs[j].data && products[i].data != rhs[j].data &&
               (i != j ==> products[i].data != products[j].data)
    modifies set i | 0 <= i < |products| :: products[i].data
    ensures ok <==> forall i :: 0 <= i < |products| ==> Conformable(lhs[i], rhs[i], products[i])
    ensures forall i :: 0 <= i < |products| && (forall j :: 0 <= j <= i ==> Conformable(lhs[j], rhs[j], products[j])) ==>
              IsProduct(lhs[i].Value(), rhs[i].Value(), products[i].Value())
  {
    var i := 0;
    while i < |products|
      invariant 0 <= i <= |products|
      invariant forall j :: 0 <= j < i ==> Conformable(lhs[j], rhs[j], products[j])
      invariant forall j :: 0 <= j < i ==> IsProduct(lhs[j].Value(), rhs[j].Value(), products[j].Value())
    {
      ok := RequestMultiplication(lhs[i], rhs[i], products[i]);
      if !ok {
        return false;
      }
      i := i + 1;
    }
    return true;
  }
}
