/**
 * The exceptions compress_image can raise, one constructor per place in
 * the script that raises.
 */
module Errors {
  import opened Images

  datatype Error =
    | FileNotFound                    // Image.open on a path that does not exist
    | UnidentifiedImage               // Image.open on a file that is not a picture
    | PathValueError                  // Path.with_suffix on a path with an empty name
    | SaveFailed(encoding: Encoding)  // Image.save raised
    | ResizeFailed                    // Image.resize to a zero dimension
}
