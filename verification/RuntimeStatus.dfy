/** Status codes of the runtime-v0 ABI. */
module RuntimeStatus {
  import opened Basics

  type Status = U32

  const OK: Status := 0
  const INVALID_ARGUMENT: Status := 1
  const UNSUPPORTED_CAPABILITY: Status := 4
  const MALFORMED_DESCRIPTOR: Status := 5
  const WRONG_HANDLE_KIND: Status := 6
  const STALE_HANDLE: Status := 7
  const CROSS_INSTANCE_HANDLE: Status := 8
  const ALREADY_RELEASED: Status := 9
  const INVALID_STATE: Status := 10
  const BUNDLE_IDENTITY_MISMATCH: Status := 11
  const CHECKPOINT_INCOMPATIBLE: Status := 12
  const OUTSTANDING_WORK: Status := 14
  const ALLOCATION_FAILURE: Status := 15
  const INTERNAL_INVARIANT: Status := 16
  const DUPLICATE_ACCEPTED: Status := 17
  const PAYLOAD_BOUNDS: Status := 18
  const STALE_GENERATION: Status := 19
  const ARENA_BUSY: Status := 20
  const TOKEN_REPLAY: Status := 21
  const EXECUTION_ROOT_FORK: Status := 22
  const TOKEN_BINDING_MISMATCH: Status := 23
  const DIAGNOSTIC_CANNOT_EXECUTE: Status := 24
}
