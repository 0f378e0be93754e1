/** The category a file is organized under. */
module FileTypes {

  datatype FileType =
    | Photo    // MIME type "image/..."
    | Video    // MIME type "video/..."
    | Unknown  // any other MIME type
}
