/**
 * The records shared by the file service and the configuration service,
 * and the Option/Result wrappers that stand in for null and for exceptions.
 */
module Models {

  datatype Option<+T> = None | Some(value: T)

  /** A value, or the exception that the C# code would have thrown instead. */
  datatype Result<+T, +E> = Ok(value: T) | Err(error: E) {
    predicate IsFailure() { Err? }

    function PropagateFailure<U>(): Result<U, E>
      requires Err?
    {
      Err(error)
    }

    function Extract(): T
      requires Ok?
    {
      value
    }
  }

  /** The exceptions the core throws. */
  datatype Error =
    | DirectoryNotFound(message: string)   // DirectoryNotFoundException from ScanFolder
    | Overflow                             // OverflowException from int.Parse on a counter width
    | ArgumentNull                         // ArgumentNullException from Path.Combine(null, ...)
    | InvalidOperation(message: string)    // InvalidOperationException from AddCustomPattern

  /**
   * A metadata dictionary, as the sequence of its entries in enumeration order.
   * The order matters: ApplyPattern substitutes the entries one after the other.
   */
  type Metadata = seq<(string, string)>

  /** A scanned file (FileInfo record); times are ticks. */
  datatype FileInfo = FileInfo(
    name: string,
    fullPath: string,
    relativePath: string,
    extension: string,
    size: int,
    createdAt: int,
    modifiedAt: int,
    isSelected: bool,
    metadata: Metadata)

  datatype RenamePattern = RenamePattern(pattern: string, description: string)

  datatype RenamePreviewItem = RenamePreviewItem(
    originalName: string,
    newName: string,
    fullPath: string,
    relativePath: string,
    hasConflict: bool,
    isSelected: bool)

  datatype RenameResult = RenameResult(
    originalPath: string,
    newPath: string,
    success: bool,
    error: Option<string>)

  datatype CustomPattern = CustomPattern(pattern: string, description: string)
}
