/** The error codes that the modelled operations return. */
module Errors {
  datatype Error =
    | Success
    | Full
    | NoEnoughMemory
    | InvalidSlotId
    | InvalidEndpointNumber
    | TransferRingNotSet
    | AlreadyAllocated
    | NotImplemented
    | InvalidDescriptor
    | NoCorrespondingSetupStage
    | TransferFailed
    | InvalidPhase
    | UnknownXhciSpeedId
    | NoWaiter
}
