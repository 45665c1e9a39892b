/** The Selective-Repeat error type and window constant of `src/slide_windows/sr/`. */
module SelectResend {
  import opened Bytes
  import opened CycleBuffers

  datatype SrError = Io | CycleBuffer(cause: CbError)

  /** `MAX_WINDOWS_SIZE`: both windows hold at most 128 packets. */
  const MAX_WINDOWS_SIZE: u8 := 128
}
