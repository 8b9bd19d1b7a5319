/** The width of the integers the modelled programs compute with. */
module MachineWords {

  const TWO_64: nat := 0x1_0000_0000_0000_0000
}
