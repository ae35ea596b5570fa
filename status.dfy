/** EFI status codes returned by the PCI bus driver and by the services it calls. */
module EfiStatus {

  /** The status codes the modelled code produces or passes through.
      `Other` stands for any further error a collaborator may report. */
  datatype Status =
    | Success
    | Unsupported
    | InvalidParameter
    | NotFound
    | OutOfResources
    | DeviceError
    | Other(code: nat)

  /** A value computed by an operation, or the status that stopped it. */
  datatype Result<T> = Ok(value: T) | Err(status: Status)

  datatype Option<T> = None | Some(value: T)
}
