/** The SQL functions of src/hedged_fs_functions.cpp: `hedged_fs_list_filesystems()`,
    a table function that emits the registered filesystems' names sorted, chunk by
    chunk, and `hedged_fs_wrap(name)`, which replaces a registered filesystem by a
    hedged wrapper around it. */
module FsFunctions {
  import opened Common
  import opened Sequences
  import opened HedgedFs

  /** The row capacity of one output chunk. */
  const STANDARD_VECTOR_SIZE: nat := 2048

  /** The table function's cursor: the sorted names and the next one to emit. */
  class ListFilesystemsData {
    var filesystems: seq<string>
    var current_idx: nat

    ghost predicate Valid()
      reads this
    {
      current_idx <= |filesystems|
    }

    constructor ()
      ensures Valid() && filesystems == [] && current_idx == 0
    {
      filesystems := [];
      current_idx := 0;
    }
  }

  /** The table function's initialisation: the subsystems' names, sorted, with the
      cursor at the first. */
  method ListFilesystemsInit(subsystems: seq<string>) returns (data: ListFilesystemsData)
    ensures fresh(data) && data.Valid() && data.current_idx == 0
    ensures data.filesystems == SortNames(subsystems)
    ensures Sorted(data.filesystems) && multiset(data.filesystems) == multiset(subsystems)
  {
    data := new ListFilesystemsData();
    data.filesystems := subsystems;
    data.filesystems := SortNames(data.filesystems);
  }

  /** The rows one call emits from position `idx`: the next names, at most a chunk's
      capacity of them, and none only when the list is exhausted. */
  function Chunk(names: seq<string>, idx: nat): (c: seq<string>)
    requires idx <= |names|
    ensures |c| <= STANDARD_VECTOR_SIZE && idx + |c| <= |names|
    ensures |c| == STANDARD_VECTOR_SIZE || idx + |c| == |names|
    ensures c == names[idx..idx + |c|]
  {
    if idx + STANDARD_VECTOR_SIZE <= |names| then names[idx..idx + STANDARD_VECTOR_SIZE] else names[idx..]
  }

  /** One call of the table function: copy names into the output chunk from the
      cursor on, until the list or the chunk is full, advancing the cursor. */
  method ListFilesystemsFunction(state: ListFilesystemsData, output: array<string>) returns (count: nat)
    requires state.Valid() && output.Length == STANDARD_VECTOR_SIZE
    modifies state, output
    ensures state.Valid() && state.filesystems == old(state.filesystems)
    ensures count <= output.Length
    ensures output[..count] == Chunk(old(state.filesystems), old(state.current_idx))
    ensures state.current_idx == old(state.current_idx) + count
  {
    count := 0;
    while state.current_idx < |state.filesystems| && count < STANDARD_VECTOR_SIZE
      invariant state.filesystems == old(state.filesystems)
      invariant count <= STANDARD_VECTOR_SIZE
      invariant state.current_idx == old(state.current_idx) + count <= |state.filesystems|
      invariant output[..count] == state.filesystems[old(state.current_idx)..state.current_idx]
      decreases |state.filesystems| - state.current_idx
    {
      output[count] := state.filesystems[state.current_idx];
      state.current_idx := state.current_idx + 1;
      count := count + 1;
    }
  }

  /** The rows of every call from position `idx` on, until a call emits none. */
  ghost function Drain(names: seq<string>, idx: nat): seq<string>
    requires idx <= |names|
    decreases |names| - idx
  {
    var c := Chunk(names, idx);
    if c == [] then [] else c + Drain(names, idx + |c|)
  }

  /** The calls from position `idx` on emit exactly the rest of the list, in order. */
  lemma {:induction false} DrainIsSuffix(names: seq<string>, idx: nat)
    requires idx <= |names|
    ensures Drain(names, idx) == names[idx..]
    decreases |names| - idx
  {
    var c := Chunk(names, idx);
    if c != [] {
      DrainIsSuffix(names, idx + |c|);
      assert names[idx..] == names[idx..idx + |c|] + names[idx + |c|..];
    }
  }

  /** From a fresh cursor, the successive calls list every subsystem exactly once, in
      ascending order. */
  lemma ListingCoversAll(subsystems: seq<string>)
    ensures Drain(SortNames(subsystems), 0) == SortNames(subsystems)
    ensures multiset(Drain(SortNames(subsystems), 0)) == multiset(subsystems)
    ensures Sorted(Drain(SortNames(subsystems), 0))
  {
    DrainIsSuffix(SortNames(subsystems), 0);
    assert SortNames(subsystems)[0..] == SortNames(subsystems);
  }

  /** The error for a name no registered filesystem answers to. */
  function NotFound(fs_name: string): (e: Exception)
    ensures e.InvalidInputException?
  {
    InvalidInputException("Filesystem '" + fs_name
                          + "' not found. Use hedged_fs_list_filesystems() to see available filesystems.")
  }

  /** `hedged_fs_wrap` over a column of names. `extracted[i]` is what extracting
      `names[i]` from the virtual filesystem yields. Each row with a filesystem
      registers a hedged wrapper around it and yields true; the first row without
      one throws, and no later row is processed. `registered` lists the names of the
      wrappers registered, in row order. */
  method HedgedFsWrapFunction(names: seq<string>, extracted: seq<Option<FileSystemRef>>)
    returns (r: Result<seq<bool>, Exception>, registered: seq<string>)
    requires |extracted| == |names|
    ensures r.Success? <==> forall i :: 0 <= i < |names| ==> extracted[i].Some?
    ensures r.Success? ==> |r.value| == |names| && (forall i :: 0 <= i < |r.value| ==> r.value[i])
    ensures r.Success? ==> |registered| == |names|
    ensures r.Failure? ==> |registered| < |names| && extracted[|registered|].None?
                           && r.error == NotFound(names[|registered|])
    ensures forall i :: 0 <= i < |registered| ==>
              extracted[i].Some? && registered[i] == HedgedName(extracted[i].value.name)
  {
    var results: seq<bool> := [];
    registered := [];
    for k := 0 to |names|
      invariant |results| == k && |registered| == k
      invariant forall i :: 0 <= i < k ==> results[i]
      invariant forall i :: 0 <= i < k ==>
                  extracted[i].Some? && registered[i] == HedgedName(extracted[i].value.name)
    {
      if extracted[k].None? {
        return Failure(NotFound(names[k])), registered;
      }
      registered := registered + [HedgedName(extracted[k].value.name)];
      results := results + [true];
    }
    r := Success(results);
  }
}
