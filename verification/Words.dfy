/** Machine-word types shared by the client and the on-chain programs. */
module Words {
  const TWO_64: nat := 0x1_0000_0000_0000_0000

  /** Order of the BN254 scalar field. */
  const P: nat := 21888242871839275222246405745257275088548364400416034343698204186575808495617

  type byte = b: nat | b < 256
  type u32 = n: nat | n < 0x1_0000_0000
  type u64 = n: nat | n < 0x1_0000_0000_0000_0000

  /** Canonical representative of a field element. */
  type felt = n: nat | n < P

  datatype Option<+T> = None | Some(value: T)

  datatype Result<+T, +E> = Ok(value: T) | Err(error: E)
}
