/** The DNP3 point types by their names in the configuration file (dnp3generator/Node.cpp:25-32). */
module PointTypes {
  datatype PointType =
    | BinaryInput | DoubleBinaryInput | AnalogInput | Counter | FrozenCounter
    | BinaryOutput | AnalogOutput | TimeInterval | OtherType(name: string)
}
