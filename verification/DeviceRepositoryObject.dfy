/** `ndisc::DeviceRepository`: the object that owns the two readers and updates its timer and its
    device table in place. Every method refines its function in `DeviceRepository`. */
module DeviceRepositoryObject {
  import opened Common
  import N = NetlinkFraming
  import R = DumpReader
  import opened D = DeviceRepository

  class Repository {
    var syncTimeout: int
    const deviceReader: R.DumpReaderObject
    const addressReader: R.DumpReaderObject
    var devices: Devices
    ghost var notes: seq<Note>
    ghost var deviceTrace: seq<R.Event>
    ghost var addressTrace: seq<R.Event>

    ghost predicate Valid()
    {
      deviceReader != addressReader
    }

    ghost function State(): Repo
      reads this, deviceReader, addressReader
    {
      Repo(syncTimeout, deviceReader.State(), addressReader.State(), devices, notes, deviceTrace, addressTrace)
    }

    constructor ()
      ensures Valid() && fresh(deviceReader) && fresh(addressReader)
      ensures State() == NEW_REPO
    {
      syncTimeout := -1;
      deviceReader := new R.DumpReaderObject();
      addressReader := new R.DumpReaderObject();
      devices := map[];
      notes, deviceTrace, addressTrace := [], [], [];
    }

    method ScheduleResync()
      modifies `syncTimeout
      ensures syncTimeout == SYNC_TIMEOUT
    {
      syncTimeout := SYNC_TIMEOUT;
    }

    method ScheduleExpediteResync(ghost note: Note)
      modifies `syncTimeout, `notes
      ensures syncTimeout == EXPEDITE_TIMEOUT && notes == old(notes) + [note]
    {
      syncTimeout := EXPEDITE_TIMEOUT;
      notes := notes + [note];
    }

    method RequestDeviceDump(outcome: R.SendOutcome)
      requires Valid()
      modifies `notes, `deviceTrace, deviceReader
      ensures State() == RequestDevices(old(State()), outcome)
    {
      var signal := deviceReader.TriggerDump(outcome);
      deviceTrace := deviceTrace + [R.Trigger(outcome)];
      notes := notes + [DeviceDump(outcome.Issued?)];
    }

    method RequestIpDump(outcome: R.SendOutcome)
      requires Valid()
      modifies `notes, `addressTrace, addressReader
      ensures State() == RequestAddresses(old(State()), outcome)
    {
      var signal := addressReader.TriggerDump(outcome);
      addressTrace := addressTrace + [R.Trigger(outcome)];
      notes := notes + [AddressDump(outcome.Issued?)];
    }

    method TickDevices(d: nat)
      requires Valid() && d <= INT_MAX
      modifies `syncTimeout, `notes, `deviceTrace, deviceReader
      ensures State() == TickDeviceReader(old(State()), d)
    {
      var signal := deviceReader.Tick(d);
      deviceTrace := deviceTrace + [R.Tick(d)];
      if signal.Failed? {
        ScheduleExpediteResync(DeviceError);
      }
    }

    method TickAddresses(d: nat)
      requires Valid() && d <= INT_MAX
      modifies `syncTimeout, `notes, `addressTrace, addressReader
      ensures State() == TickAddressReader(old(State()), d)
    {
      var signal := addressReader.Tick(d);
      addressTrace := addressTrace + [R.Tick(d)];
      if signal.Failed? {
        ScheduleExpediteResync(AddressError);
      }
    }

    method Tick(d: nat, outcome: R.SendOutcome)
      requires Valid() && d <= INT_MAX
      modifies this, deviceReader, addressReader
      ensures State() == TickState(old(State()), d, outcome)
    {
      TickDevices(d);
      TickAddresses(d);
      notes := notes + [Elapsed(d)];
      if syncTimeout > d {
        syncTimeout := syncTimeout - d;
      } else {
        syncTimeout := 0;
        RequestDeviceDump(outcome);
        ScheduleResync();
      }
    }

    method HandleMonitorPackets()
      requires Valid()
      modifies `syncTimeout, `notes
      ensures State() == Expedited(old(State()), Monitored)
    {
      ScheduleExpediteResync(Monitored);
    }

    /** A loop over the attributes in which later ones win. */
    method HandleLinkPacket(v: N.View)
      requires v.LinkView?
      modifies `devices
      ensures devices == AfterLink(old(devices), v)
    {
      if v.header.kind != N.RTM_NEWLINK || FromLittleEndian16(v.link[2..]) != ARPHRD_ETHER {
        return;
      }
      var i := LinkIndex(v.link);
      ghost var before := DeviceAt(devices, i);
      var device := DeviceAt(devices, i).(ifIndex := i, operational := Operational(v.link));
      for k := 0 to |v.attributes|
        invariant device == before.(
                    ifIndex := i,
                    operational := Operational(v.link),
                    name := LastName(v.attributes[..k], before.name),
                    mac := LastMac(v.attributes[..k], before.mac))
      {
        var attribute := v.attributes[k];
        assert v.attributes[..k + 1][..k] == v.attributes[..k];
        if IsName(attribute) {
          device := device.(name := Some(NameFrom(attribute.value)));
        } else if IsMac(attribute) {
          device := device.(mac := Some(attribute.value));
        }
      }
      assert v.attributes[..|v.attributes|] == v.attributes;
      devices := devices[i := device];
    }

    method HandleAddressPacket(v: N.View)
      requires v.AddrView?
      modifies `devices
      ensures devices == AfterAddress(old(devices), v)
    {
      if !AddressAccepted(v) {
        return;
      }
      var i := FromLittleEndian32(v.address[4..]);
      ghost var before := DeviceAt(devices, i);
      var device := DeviceAt(devices, i).(ifIndex := i);
      var isIpv4 := v.address[0] == AF_INET;
      for k := 0 to |v.attributes|
        invariant device == if isIpv4 then
                              before.(ifIndex := i, ipv4 := LastIpv4(v.attributes[..k], before.ipv4))
                            else
                              before.(ifIndex := i, ipv6 := LastIpv6(v.attributes[..k], before.ipv6))
      {
        var attribute := v.attributes[k];
        assert v.attributes[..k + 1][..k] == v.attributes[..k];
        if attribute.kind == IFA_ADDRESS {
          if isIpv4 && |attribute.value| == 4 {
            device := device.(ipv4 := Some(attribute.value));
          } else if !isIpv4 && |attribute.value| == 16 {
            device := device.(ipv6 := Some(attribute.value));
          }
        }
      }
      assert v.attributes[..|v.attributes|] == v.attributes;
      devices := devices[i := device];
    }

    /** A packet on the device reader's socket, with the callbacks it leads to. */
    method OnDevicePacket(v: N.View, outcome: R.SendOutcome)
      requires Valid()
      modifies this, deviceReader, addressReader
      ensures State() == DevicePacketState(old(State()), v, outcome)
    {
      var signal := deviceReader.HandleNetlinkPacket(DeviceReply(v));
      deviceTrace := deviceTrace + [R.Receive(DeviceReply(v))];
      match signal
      case HandedOver(_, _) =>
        if v.LinkView? {
          HandleLinkPacket(v);
        }
      case Completed(_) =>
        notes := notes + [DeviceDone];
        RequestIpDump(outcome);
      case Failed(_) =>
        ScheduleExpediteResync(DeviceError);
      case _ =>
    }

    /** A packet on the address reader's socket; the end of the dump hands the devices to the
        synchronisation callback. */
    method OnAddressPacket(v: N.View) returns (snapshot: Option<Devices>)
      requires Valid()
      modifies this, addressReader
      ensures State() == AddressPacketState(old(State()), v)
      ensures snapshot.Some? <==> AddressControl(old(State()), AddressReply(v)).1.Completed?
      ensures snapshot.Some? ==> snapshot.value == old(devices)
    {
      snapshot := None;
      var signal := addressReader.HandleNetlinkPacket(AddressReply(v));
      addressTrace := addressTrace + [R.Receive(AddressReply(v))];
      match signal
      case HandedOver(_, _) =>
        if v.AddrView? {
          HandleAddressPacket(v);
        }
      case Completed(_) =>
        snapshot := Some(devices);
        notes := notes + [Synced(devices)];
      case Failed(_) =>
        ScheduleExpediteResync(AddressError);
      case _ =>
    }
  }
}
