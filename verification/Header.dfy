// Block headers and the tags the runtime gives a special meaning to (mlvalues.h, gc.h).
module Header {

  datatype Color = White | Gray | Blue | Black

  const LAZY_TAG: nat := 246
  const CLOSURE_TAG: nat := 247
  const OBJECT_TAG: nat := 248
  const INFIX_TAG: nat := 249
  const FORWARD_TAG: nat := 250
  const NO_SCAN_TAG: nat := 251
  const ABSTRACT_TAG: nat := 251
  const STRING_TAG: nat := 252
  const DOUBLE_TAG: nat := 253
  const DOUBLE_ARRAY_TAG: nat := 254
  const CUSTOM_TAG: nat := 255
}
