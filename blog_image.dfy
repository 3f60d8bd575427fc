/** The featured-image size rule shared by the blog editor screens. */
module BlogImage {

  /** A file picked in the image input; the rules look only at its size in bytes. */
  datatype ImageFile = ImageFile(name: string, size: nat)

  /** 5 MiB, written `5 * 1024 * 1024` in both handlers. */
  const MaxImageBytes: nat := 5 * 1024 * 1024

  /** The handlers reject a file when `file.size > MaxImageBytes`. */
  predicate WithinSizeLimit(f: ImageFile) {
    f.size <= MaxImageBytes
  }
}
