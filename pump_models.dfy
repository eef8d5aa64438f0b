/** pump-n-dump/models/summary.go: the record stored per market and poll. */
module PumpModels {
  /**
   * `Summary`. `bson.ObjectId` is a string in Go; a summary built from a
   * market result has the zero ID `""` until one is assigned before insertion.
   */
  datatype Summary = Summary(id: string, last: real, openBuyOrders: real, openSellOrders: real,
                             volume: real, timeStamp: string)
}
