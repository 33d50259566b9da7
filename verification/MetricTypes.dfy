/** What the readers of metrics hand to the metrics thread (lib/metric_types.h). */
module MetricTypes {

  datatype Variability = CONSTANT | MONOTONIC | VARIABLE
  datatype DataType = LONG | STRING
  datatype Unit = NONE | BYTES | TICKS | EVENTS | TEXT | HERTZ | MILLISECONDS | NANOSECONDS
  datatype Data = Data(dataType: DataType, text: string, number: int)

  datatype Entry = Entry(name: string, variability: Variability, unit: Unit, data: Data)
  datatype Batch = Batch(entries: seq<Entry>, millis: int)

  /** A number that changes from one read to the next. */
  function LongVar(name: string, unit: Unit, value: int): Entry {
    Entry(name, VARIABLE, unit, Data(LONG, "", value))
  }
}
