/** An uploaded file part (`MultipartFile`), reduced to what the services inspect. */
module Multipart {
  import opened Wrappers

  datatype MultipartFile = MultipartFile(originalFilename: Option<string>, contentType: Option<string>, size: nat) {
    /** `isEmpty()`: the part carries no bytes. */
    predicate IsEmpty() {
      size == 0
    }
  }
}
