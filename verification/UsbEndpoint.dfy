/** uspi/lib/usbendpoint.c: the data toggle kept for one endpoint. */
module UsbEndpoint {

  datatype Pid = Setup | Data0 | Data1

  // Isochronous endpoints are rejected by the constructor and are not modelled.
  datatype EndpointType = Control | Bulk | Interrupt

  /** The packet identifier that follows `packets` acknowledged packets. */
  function SkipPid(pid: Pid, packets: nat, statusStage: bool): Pid {
    if statusStage then Setup
    else if pid == Setup then Data1
    else if packets % 2 == 0 then pid
    else if pid == Data0 then Data1
    else Data0
  }

  /** The packet identifier a transaction is programmed with. */
  function NextPid(pid: Pid, statusStage: bool): Pid {
    if statusStage then Data1 else pid
  }

  function Parity(n: nat): Pid {
    if n % 2 == 0 then Data0 else Data1
  }

  // ----- Histories of what a bulk or interrupt endpoint is told; of stages in EndpointToggle -----

  datatype ToggleOp = Acknowledge(packets: nat) | Reset

  /** The packet identifier after a history, starting from a new endpoint. */
  function ToggleAfter(ops: seq<ToggleOp>): Pid {
    if ops == [] then Data0
    else match ops[|ops| - 1]
      case Acknowledge(n) => SkipPid(ToggleAfter(ops[..|ops| - 1]), n, false)
      case Reset => Data0
  }

  /** Packets it was told about since it was created or last reset. */
  function PacketsSinceReset(ops: seq<ToggleOp>): nat {
    if ops == [] then 0
    else match ops[|ops| - 1]
      case Acknowledge(n) => PacketsSinceReset(ops[..|ops| - 1]) + n
      case Reset => 0
  }

  lemma {:induction false} ToggleIsParity(ops: seq<ToggleOp>)
    ensures ToggleAfter(ops) == Parity(PacketsSinceReset(ops))
  {
    if ops != [] && ops[|ops| - 1].Acknowledge? {
      ToggleIsParity(ops[..|ops| - 1]);
    }
  }

  class Endpoint {
    const endpointType: EndpointType
    const interval: nat
    // The device sits behind a hub and is not high speed, so transfers are split.
    const needsSplit: bool
    var maxPacketSize: nat
    var nextPid: Pid
    ghost var history: seq<ToggleOp>

    ghost predicate Valid()
      reads this
    {
      && maxPacketSize > 0
      && (endpointType != Control ==> nextPid == ToggleAfter(history))
    }

    constructor (endpointType: EndpointType, maxPacketSize: nat, interval: nat, needsSplit: bool)
      requires maxPacketSize > 0
      ensures Valid() && history == []
      ensures this.endpointType == endpointType && this.needsSplit == needsSplit
      ensures this.maxPacketSize == maxPacketSize && this.interval == interval
      ensures endpointType == Control ==> nextPid == Setup
    {
      this.endpointType := endpointType;
      this.interval := interval;
      this.needsSplit := needsSplit;
      this.maxPacketSize := maxPacketSize;
      nextPid := if endpointType == Control then Setup else Data0;
      history := [];
    }

    method GetNextPid(statusStage: bool) returns (pid: Pid)
      requires statusStage ==> endpointType == Control
      ensures pid == NextPid(nextPid, statusStage) == if statusStage then Data1 else nextPid
    {
      if statusStage {
        return Data1;
      }
      return nextPid;
    }

    method SkipPID(packets: nat, statusStage: bool)
      requires Valid()
      requires statusStage ==> endpointType == Control
      modifies this
      ensures Valid() && maxPacketSize == old(maxPacketSize)
      ensures nextPid == SkipPid(old(nextPid), packets, statusStage)
      ensures history == old(history) + [Acknowledge(packets)]
      ensures endpointType != Control ==> nextPid == Parity(PacketsSinceReset(history))
    {
      if !statusStage {
        match nextPid {
          case Setup =>
            nextPid := Data1;
          case Data0 =>
            if packets % 2 == 1 {
              nextPid := Data1;
            }
          case Data1 =>
            if packets % 2 == 1 {
              nextPid := Data0;
            }
        }
      } else {
        nextPid := Setup;
      }
      history := history + [Acknowledge(packets)];
      ToggleIsParity(history);
    }

    method ResetPID()
      requires endpointType == Bulk && Valid()
      modifies this
      ensures Valid() && maxPacketSize == old(maxPacketSize)
      ensures nextPid == Data0 && history == old(history) + [Reset]
    {
      nextPid := Data0;
      history := history + [Reset];
    }
  }
}
