/** `lldp::LldpSender`: the object whose methods update the timer, the credits, the fast counter
    and the pending trigger in place. Every method refines its function in `SenderSpec`. */
module LldpSenderObject {
  import opened Common
  import S = SenderSpec

  class LldpSender {
    const net: S.Network
    var deviceData: DeviceData
    var transmitTimer: Uint16
    var transmitCredits: Uint16
    var fastForwardCounter: Uint16
    var triggerReady: bool
    var log: seq<S.Attempt>

    ghost function State(): S.Sender
      reads this
    {
      S.Sender(deviceData, transmitTimer, transmitCredits, fastForwardCounter, triggerReady, log)
    }

    constructor (net: S.Network, device: DeviceData)
      ensures this.net == net
      ensures State() == S.NewSender(device, net)
    {
      this.net := net;
      deviceData := device;
      transmitTimer, transmitCredits, fastForwardCounter, triggerReady, log := 0, 0, 0, false, [];
      new;
      if deviceData.operational {
        EnableSender();
      } else {
        DisableSender();
      }
    }

    /** A sender as it is held by value in the repository's map. */
    constructor Load(s: S.Sender, net: S.Network)
      ensures this.net == net && State() == s
    {
      this.net := net;
      deviceData, log := s.device, s.log;
      transmitTimer, transmitCredits, fastForwardCounter, triggerReady := s.timer, s.credits, s.fast, s.ready;
    }

    /** The value to store back into the map. */
    method Store() returns (s: S.Sender)
      ensures s == State()
    {
      s := S.Sender(deviceData, transmitTimer, transmitCredits, fastForwardCounter, triggerReady, log);
    }

    method Update(data: DeviceData)
      modifies this
      ensures State() == S.UpdateState(old(State()), data, net)
    {
      var anyChanged := false;
      if deviceData.name != data.name {
        anyChanged := true;
        deviceData := deviceData.(name := data.name);
      }
      if deviceData.ipv4 != data.ipv4 {
        anyChanged := true;
        deviceData := deviceData.(ipv4 := data.ipv4);
      }
      if deviceData.ipv6 != data.ipv6 {
        anyChanged := true;
        deviceData := deviceData.(ipv6 := data.ipv6);
      }
      if deviceData.operational != data.operational {
        anyChanged := true;
        if data.operational {
          DisableSender();
        } else {
          EnableSender();
        }
        deviceData := deviceData.(operational := data.operational);
      }
      if anyChanged {
        LocalChangeDetected();
      }
    }

    method SendLldp(ttl: Uint16)
      modifies this
      ensures State() == S.SendLldp(old(State()), ttl, net)
    {
      if deviceData.ifIndex > INT_MAX || deviceData.mac.None? {
        return;
      }
      var result := net(|log|);
      log := log + [S.Attempt(ttl, deviceData)];
      if result.NetDown? {
        deviceData := deviceData.(operational := false);
        DisableSender();
      }
    }

    method EndTransmission()
      modifies this
      ensures State() == S.EndTransmission(old(State()), net)
    {
      if deviceData.mac.Some? {
        SendLldp(0);
      }
    }

    method TryTransmit()
      modifies this
      ensures State() == S.TryTransmit(old(State()), net)
    {
      if triggerReady && transmitCredits > 0 && deviceData.mac.Some? {
        triggerReady := false;
        transmitCredits := transmitCredits - 1;
        SendLldp(S.TARGET_TTL);
      }
    }

    method TriggerTransmission()
      modifies this
      ensures State() == S.Trigger(old(State()), net)
    {
      if fastForwardCounter > 0 {
        transmitTimer := S.MESSAGE_FAST_INTERVAL;
      } else {
        transmitTimer := S.MESSAGE_TRANSMIT_INTERVAL;
      }
      triggerReady := true;
      TryTransmit();
    }

    method TimerExpired()
      modifies this
      ensures var s := old(State());
              State() == S.Trigger(s.(fast := if s.fast > 0 then s.fast - 1 else 0), net)
    {
      if fastForwardCounter > 0 {
        fastForwardCounter := fastForwardCounter - 1;
      }
      TriggerTransmission();
    }

    method NewNeighbour()
      modifies this
      ensures State() == S.NewNeighbour(old(State()), net)
    {
      if fastForwardCounter == 0 {
        fastForwardCounter := S.FAST_TRANSMIT_AMOUNT;
      }
      TimerExpired();
    }

    method LocalChangeDetected()
      modifies this
      ensures State() == S.Trigger(old(State()), net)
    {
      TriggerTransmission();
    }

    /** The sum is compared in 64 bits and stored in 16. */
    method ReplenishCredits(d: Uint64)
      modifies `transmitCredits
      ensures transmitCredits == S.Replenish(old(transmitCredits), d)
    {
      var sum := transmitCredits + d;
      if sum % 0x1_0000_0000_0000_0000 <= S.MAX_TRANSMIT_CREDITS {
        transmitCredits := sum % 0x1_0000;
      }
    }

    /** The two transmission opportunities of a tick amount to one. */
    method Tick(d: Uint64)
      modifies this
      ensures State() == S.TickState(old(State()), d, net)
    {
      if deviceData.operational {
        ReplenishCredits(d);
        if transmitTimer > d {
          transmitTimer := transmitTimer - d;
        } else {
          transmitTimer := 0;
          TimerExpired();
        }
        TryTransmit();
      }
    }

    method DisableSender()
    {
    }

    method EnableSender()
      modifies this
      ensures State() == S.NewNeighbour(old(State()), net)
    {
      NewNeighbour();
    }
  }
}
