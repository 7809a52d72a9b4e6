/** What a request does on the drainer. */
module DrainerLog {
  datatype Op = Acquired(worker: string) | Released(worker: string)
}
