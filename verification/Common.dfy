/** The types and constants that every component shares (common/src/lib.rs). */
module Common {

  datatype Option<+T> = None | Some(value: T)

  const TWO64: nat := 0x1_0000_0000_0000_0000

  type U8 = n: nat | n < 256
  type U64 = n: nat | n < TWO64
  type SyscallId = n: nat | n < 0x1_0000_0000
  type ArgsHash = U64
  type Bytes = seq<U8>
  type Pubkey = b: Bytes | |b| == 32 witness seq(32, _ => 0)
  type TransactionId = Pubkey

  datatype SyscallTraceEvent = SyscallTraceEvent(
    programId: Pubkey,
    syscallId: SyscallId,
    argsHash: ArgsHash,
    timestampNs: U64,
    slot: U64,
    transactionId: TransactionId,
    depth: U8)

  type Event = SyscallTraceEvent

  datatype SafetyClass = ReadOnly | Idempotent | StateChanging | OrderSensitive

  datatype CacheKey = CacheKey(syscallId: SyscallId, argsHash: ArgsHash)

  const SOL_GET_CLOCK_SYSVAR: SyscallId := 1
  const SOL_GET_RENT_SYSVAR: SyscallId := 2
  const SOL_GET_EPOCH_SCHEDULE_SYSVAR: SyscallId := 3
  const SOL_GET_FEES_SYSVAR: SyscallId := 4
  const SOL_GET_SLOT_HASHES_SYSVAR: SyscallId := 5
  const SOL_GET_STAKE_HISTORY_SYSVAR: SyscallId := 6
  const SOL_LOG: SyscallId := 10
  const SOL_LOG_64: SyscallId := 11
  const SOL_LOG_PUBKEY: SyscallId := 12
  const SOL_LOG_COMPUTE_UNITS: SyscallId := 13
  const SOL_SHA256: SyscallId := 20
  const SOL_KECCAK256: SyscallId := 21
  const SOL_SECP256K1_RECOVER: SyscallId := 22
  const SOL_ED25519_VERIFY: SyscallId := 23
  const SOL_INVOKE_SIGNED: SyscallId := 30
  const SOL_SET_RETURN_DATA: SyscallId := 40
  const SOL_GET_RETURN_DATA: SyscallId := 41
  const SOL_ALLOC_FREE: SyscallId := 50
  const SOL_MEMCPY: SyscallId := 51
  const SOL_MEMMOVE: SyscallId := 52
  const SOL_MEMSET: SyscallId := 53
  const SOL_MEMCMP: SyscallId := 54
  const SOL_PANIC: SyscallId := 60
  const SOL_ABORT: SyscallId := 61

  /** A u64 counter's increment: it wraps, as `fetch_add` and release-mode `+=` do. */
  function Bump(n: U64): U64 {
    (n + 1) % TWO64
  }
}
