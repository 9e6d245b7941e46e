/** The failures the scheduler reports to the invoking user, from every command. */
module Errors {
  datatype Error =
    | UnknownEventKey(key: string)       // `update(key, transform)` on an absent key
    | EventExists(id: string)            // create with an id already in the store
    | ParseFailed(value: string)         // a timestamp that neither parser accepts
    | SlotLengthRejected(minutes: int)   // slot length argument outside 5..300
    | EventNotFound(key: string)         // signup for an absent event
    | NoTimeslotSelected                 // submit before any selection
    | StepNotPositive(step: int)         // a slot progression with a step <= 0
}
