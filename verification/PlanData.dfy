/** The execution plan: the backend commands of one invocation and what it publishes. */
module PlanData {
  import opened Strings

  // The longest command tail that DOS passes to a program.
  const TAIL_LIMIT: nat := 126

  /** A guest path on the drive of the workspace. */
  predicate OnDriveE(word: string)
  {
    "E:\\" <= word
  }

  /** The words behind the tool. */
  function Tail(words: seq<string>): seq<string>
  {
    if words == [] then [] else words[1..]
  }

  /** The length of the command tail that `arguments` make: a blank before each word. */
  function TailLength(arguments: seq<string>): nat
  {
    Lengths(Tail(arguments))
  }

  /** One backend command. `response` is empty, or the tool and the lines of its response file. */
  datatype Command = Command(arguments: seq<string>, response: seq<string>, responseFile: string,
                             product: string, source: string)

  /** The commands in order, in parallel lists the published guest paths, their workspace products
      and their host paths, and the tool root and the guest paths of the library areas. */
  datatype Plan = Plan(commands: seq<Command>, outputs: seq<string>, products: seq<string>,
                       hostOutputs: seq<string>, root: string, libraries: seq<string>)
  {
    predicate Parallel()
    {
      |outputs| == |products| == |hostOutputs|
    }
  }
}
