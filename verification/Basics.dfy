/** Bytes and bounds used across the model. */
module Basics {
  type Byte = b: nat | b < 256

  function Min(a: nat, b: nat): nat { if a < b then a else b }

  function Max(a: nat, b: nat): nat { if a > b then a else b }
}
