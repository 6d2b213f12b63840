/** The parts of the contract engine that only look at code (pkg/contracts/engine.go). */
module Contracts {
  import opened Machine

  const WASM_MAGIC: Bytes := [0x00, 0x61, 0x73, 0x6D]

  /** The bytes the code scan takes for floating-point opcodes. */
  predicate FloatOpcode(b: uint8) {
    b == 0x43 || b == 0x44 || 0x8B <= b <= 0x8E || 0x99 <= b <= 0x9C
  }

  predicate ValidateWasmCode(code: Bytes) {
    WASM_MAGIC <= code && forall i :: 0 <= i < |code| ==> !FloatOpcode(code[i])
  }

  function EstimateInstructions(code: Bytes): uint64 { Len64(code) }
}
