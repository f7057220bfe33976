/** Sizes of the machine integers whose wrap-around the model spells out. */
module Word {
  const TWO_31 := 0x8000_0000
  const TWO_32 := 0x1_0000_0000
  const TWO_64 := 0x1_0000_0000_0000_0000
}
