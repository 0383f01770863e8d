/** What a successful execv leaves behind, shared by envoy and envoy-exec. */
module Process {
  import opened CText

  /** The program image execv replaced the process with: the path and the
      NULL-terminated argument vector (None is the terminating NULL). */
  datatype Launch = Launch(path: string, argv: seq<Option<string>>)

  /** Arguments as entries of an argument vector. */
  function Wrapped(args: seq<string>): (r: seq<Option<string>>)
    ensures |r| == |args|
  {
    if args == [] then [] else [Some(args[0])] + Wrapped(args[1..])
  }

  /** Each argument lands at its own index. */
  lemma {:induction false} WrappedAt(args: seq<string>)
    ensures forall i :: 0 <= i < |args| ==> Wrapped(args)[i] == Some(args[i])
    decreases |args|
  {
    if args != [] {
      WrappedAt(args[1..]);
    }
  }
}
