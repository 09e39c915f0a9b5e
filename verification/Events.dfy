// Events and messages (kafka/event.go).
module Events {
  import opened Json
  import opened Wrappers

  // The fields of a CloudEvent that decide what happens to it. `data` is None when the event
  // carries none.
  datatype CloudEvent = CloudEvent(typ: string, data: Option<Json>)

  // A message on the log; `event` is None when its value does not decode as a CloudEvent.
  datatype Message = Message(key: string, event: Option<CloudEvent>)
}
