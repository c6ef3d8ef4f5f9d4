/** The parsed device description the generator starts from: the peripherals of
    the device in document order, each with its interrupt lines. Parsing the
    description file is done by `svd_parser` and is not part of this model. */
module Svd {
  import opened Wrappers

  /** One interrupt line: its name, its optional description, and `value`, its
      position in the hardware vector table. */
  datatype Interrupt = Interrupt(name: string, description: Option<string>, value: nat)

  datatype Peripheral = Peripheral(name: string, interrupts: seq<Interrupt>)
}
