/**
 * The serial link as the driver sees it: a port that is open or closed, the
 * bytes written to it so far, the bytes waiting to be read, and whether its
 * writes and reads raise. A read returns fewer bytes than asked when the
 * queue runs dry, as a read with a timeout does.
 */
module Serial {
  import opened MspCodec

  /** One entry of the port listing. */
  datatype PortInfo = PortInfo(port: string, description: string, hardwareId: string)

  /**
   * The observable state of a port. `readBudget` is how many more reads
   * complete before every read raises (None: reads never raise);
   * `writeFault` is whether every write raises.
   */
  datatype PortState = PortState(
    open: bool,
    written: seq<byte>,
    incoming: seq<byte>,
    writeFault: bool,
    readBudget: Option<nat>)

  class SerialPort {
    const name: string
    var open: bool
    var written: seq<byte>
    var incoming: seq<byte>
    const writeFault: bool
    var readBudget: Option<nat>

    function State(): PortState
      reads this
    {
      PortState(open, written, incoming, writeFault, readBudget)
    }

    /** A port on device `name` that starts out in state `s`. */
    constructor (name: string, s: PortState)
      ensures this.name == name && State() == s
    {
      this.name := name;
      open := s.open;
      written := s.written;
      incoming := s.incoming;
      writeFault := s.writeFault;
      readBudget := s.readBudget;
    }

    method IsOpen() returns (r: bool)
      ensures r == open
    {
      r := open;
    }

    method Close()
      modifies this`open
      ensures !open
    {
      open := false;
    }

    /** Writing raises on a closed or faulty port and otherwise appends `data` to what was written. */
    method Write(data: seq<byte>) returns (ok: bool)
      modifies this`written
      ensures ok == (open && !writeFault)
      ensures State() == if ok then old(State()).(written := old(written) + data) else old(State())
    {
      ok := open && !writeFault;
      if ok {
        written := written + data;
      }
    }

    /**
     * Reading up to `n` bytes raises on a closed port or once the read budget
     * is spent; otherwise it consumes and returns what is there, at most `n`.
     */
    method Read(n: nat) returns (ok: bool, data: seq<byte>)
      modifies this`incoming, this`readBudget
      ensures ok == (open && ReadAllowed(old(readBudget), 0))
      ensures ok ==> data == Take(old(incoming), n)
                     && State() == old(State()).(incoming := old(incoming)[|data|..], readBudget := Spend(old(readBudget), 1))
      ensures !ok ==> State() == old(State())
    {
      ok := open && ReadAllowed(readBudget, 0);
      data := [];
      if ok {
        data := Take(incoming, n);
        incoming := incoming[|data|..];
        readBudget := Spend(readBudget, 1);
      }
    }
  }
}
