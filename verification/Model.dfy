// The platform-independent domain types shared by every component.
module Model {
  datatype Option<+T> = None | Some(value: T)

  datatype Result<+T, +E> = Ok(value: T) | Err(error: E)

  // PIDs and start times are only ever compared, so their width plays no part.
  datatype ProcMeta = ProcMeta(
    pid: nat, ppid: nat, uid: nat, user: string, name: string, cmdline: seq<string>, startTime: nat)

  datatype Protocol = TCP | UDP

  datatype SocketState = Other | Listen | Established | CloseWait | TimeWait

  datatype Lifecycle = Alive | Zombie | Gone

  // An address is a family and its bytes; a v6 address may carry a zone.
  datatype Addr = NoAddr | V4(bytes: seq<nat>) | V6(bytes: seq<nat>, zone: string)

  datatype AddrPort = AddrPort(addr: Addr, port: nat)

  datatype Binding = Binding(endpoint: AddrPort, protocol: Protocol, state: SocketState, inode: nat,
      proc: Option<ProcMeta>)

  // What a controller can report. `errors.Is` sees through wrapping, so an error
  // is the sentinel it wraps.
  datatype PinError = ProcessGone | IdentityChanged | PermissionDenied | NoConsole | OtherError(code: int)
}
