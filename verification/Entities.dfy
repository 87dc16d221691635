/** The types that several modules name. */
module Entities {
  /** The type of a port in a switch. */
  datatype PortType = Unused | Cpu | Dsa | User

  /** A bridge or LAG device of the kernel, known by its identity alone. */
  type Dev = nat
}
