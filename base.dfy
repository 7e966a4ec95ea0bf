/** Option and Result wrappers, and the ways a run of git-ls can fail. */
module Base {

  datatype Option<+T> = None | Some(value: T)

  /** The Python script raises an exception on these inputs; the model returns Err instead. */
  datatype Failure =
    | StatusLineTooShort(line: nat)      // `line[0]`/`line[1]` on a porcelain line shorter than 2
    | TreeLineMalformed(line: nat)       // the two unpackings of an ls-tree row fail
    | SubmoduleLineMalformed(line: nat)  // `split("=", 1)[1]` on a path/url line without '='
    | ModeNotOctal(name: seq<char>)      // `int(mode, 8)` on a tree mode that is not octal

  datatype Result<+T> = Ok(value: T) | Err(error: Failure)
}
