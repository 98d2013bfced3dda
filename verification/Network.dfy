/** The part of the controller's view of the network that the Snort tunnels depend on. */
module Network {
  datatype DeviceId = DeviceId(uri: string)

  type PortNumber = nat

  datatype ConnectPoint = ConnectPoint(device: DeviceId, port: PortNumber)

  datatype Link = Link(src: ConnectPoint, dst: ConnectPoint) {
    function Reverse(): Link {
      Link(dst, src)
    }
  }

  /** What the device and link services report: the known devices and the directed links. */
  datatype Topology = Topology(devices: set<DeviceId>, links: set<Link>) {
    /** Links join known devices, come in both directions, and no port carries two of them. */
    ghost predicate Valid() {
      && (forall l | l in links :: l.src.device in devices && l.dst.device in devices)
      && (forall l {:trigger l.Reverse()} | l in links :: l.Reverse() in links)
      && (forall k, l | k in links && l in links && k.src == l.src :: k == l)
    }

    /** All links with an end on the device, whichever end it is. */
    function DeviceLinks(device: DeviceId): set<Link> {
      set l | l in links && (l.src.device == device || l.dst.device == device)
    }

    /** A packet can travel from one device to another crossing exactly `n` links. */
    ghost predicate Reaches(from: DeviceId, to: DeviceId, n: nat)
      decreases n
    {
      if n == 0 then from == to
      else exists l :: l in links && l.src.device == from && Reaches(l.dst.device, to, n - 1)
    }

    /** `h` is the least number of links to any of the targets, or -1 if none can be reached. */
    ghost predicate IsDistance(targets: set<DeviceId>, device: DeviceId, h: int) {
      && -1 <= h
      && (0 <= h ==> exists s :: s in targets && Reaches(device, s, h))
      && (forall s, n: nat | s in targets && Reaches(device, s, n) :: 0 <= h <= n)
    }
  }
}
