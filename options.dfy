/**
 * The command-line options of task2/matrix_mul (options.h, options.c).
 * `args` stands for `argv[1..]`, so `argc` is `|args| + 1`.
 */
module MatrixOptions {
  import opened Wrappers
  import opened CommandLine

  /** `struct Options`. */
  datatype Options = Options(matrixOrder: int, operations: int, logProducts: bool)

  /**
   * `OPTIONS_set`: the order comes from the first argument (0 when absent),
   * the operation count from the second (1 when absent) and the logging
   * flag from the third (off when absent, on for any non-zero value);
   * a non-positive order or count is the error exit.
   */
  function Set(args: seq<Arg>): (r: Option<Options>)
    ensures r.Some? <==> |args| >= 1 && args[0].asInt > 0 && (|args| >= 2 ==> args[1].asInt > 0)
    ensures r.Some? ==> r.value.matrixOrder == args[0].asInt && r.value.matrixOrder > 0
    ensures r.Some? ==> r.value.operations == (if |args| >= 2 then args[1].asInt else 1) && r.value.operations > 0
    ensures r.Some? ==> (r.value.logProducts <==> |args| >= 3 && args[2].asInt != 0)
  {
    var matrixOrder := if |args| >= 1 then args[0].asInt else 0;
    var operations := if |args| >= 2 then args[1].asInt else 1;
    var logProducts := if |args| >= 3 then args[2].asInt != 0 else false;
    if matrixOrder <= 0 || operations <= 0 then None
    else Some(Options(matrixOrder, operations, logProducts))
  }

  /** The default order is not a valid one: a run without a first argument always fails. */
  lemma OrderIsRequired(args: seq<Arg>)
    requires |args| == 0
    ensures Set(args).None?
  {
  }
}
