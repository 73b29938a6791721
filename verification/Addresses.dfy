/** IPv4 addresses as four bytes, and the places where one end of a tunnel is derived from the other. */
module Addresses {
  import opened Options

  newtype Byte = x: int | 0 <= x < 256

  datatype IPv4 = IPv4(a: Byte, b: Byte, c: Byte, d: Byte)

  /** Byte arithmetic wraps around. */
  function Inc(x: Byte): Byte { if x == 255 then 0 else x + 1 }

  function Dec(x: Byte): Byte { if x == 0 then 255 else x - 1 }

  /** The address as a number, most significant byte first. */
  function Value(ip: IPv4): nat {
    ((ip.a as nat * 256 + ip.b as nat) * 256 + ip.c as nat) * 256 + ip.d as nat
  }

  /** addPeer's own address on the client side: one more, carrying to .1 of the next block of 256. */
  method ClientOwnAddress(serverIP: IPv4) returns (ip: IPv4)
    ensures ip == ClientAddress(serverIP)
  {
    ip := serverIP.(d := Inc(serverIP.d));
    if ip.d == 0 {
      ip := ip.(c := Inc(ip.c), d := 1);
      if ip.c == 0 {
        ip := ip.(b := Inc(ip.b));
        if ip.b == 0 {
          ip := ip.(a := Inc(ip.a));
        }
      }
    }
  }

  function ClientAddress(ip: IPv4): IPv4 {
    if ip.d < 255 then ip.(d := ip.d + 1)
    else if ip.c < 255 then ip.(c := ip.c + 1, d := 1)
    else if ip.b < 255 then ip.(b := ip.b + 1, c := 0, d := 1)
    else IPv4(Inc(ip.a), 0, 0, 1)
  }

  /** In numbers: one further, or two from the last address of a block of 256, over all 32 bits. */
  lemma ClientAddressIs(ip: IPv4)
    ensures Value(ClientAddress(ip)) == (Value(ip) + if ip.d == 255 then 2 else 1) % 0x1_0000_0000
  {
  }

  /** The migration report's increment: the carry stops at the third byte. */
  method IncrementIP(ip: IPv4) returns (out: IPv4)
    ensures out == Incremented(ip)
  {
    out := ip.(d := Inc(ip.d));
    if out.d == 0 {
      out := out.(c := Inc(out.c));
    }
  }

  function Incremented(ip: IPv4): IPv4 {
    if ip.d < 255 then ip.(d := ip.d + 1) else ip.(c := Inc(ip.c), d := 0)
  }

  /** In numbers: one further in the last two bytes, the first two staying. */
  lemma IncrementedIs(ip: IPv4)
    ensures var out := Incremented(ip);
      && out.a == ip.a && out.b == ip.b
      && out.c as nat * 256 + out.d as nat == (ip.c as nat * 256 + ip.d as nat + 1) % 0x1_0000
  {
  }

  datatype Role = Server | Client

  /** The link-quality monitor's peer of an interface: one more on a server interface, one less on a
      client one, within the last byte. */
  function DerivedPeer(role: Role, own: IPv4): IPv4 {
    match role
    case Server => own.(d := Inc(own.d))
    case Client => own.(d := Dec(own.d))
  }

  /** The address under which the watcher looks up the tunnel of an interface. */
  function LookupAddress(role: Role, own: IPv4): IPv4 {
    match role
    case Server => own
    case Client => own.(d := Dec(own.d))
  }

  /** Both change the last byte alone, modulo 256: the peer of a server's address is one more, that of a
      client's one less, and so is the address a client's tunnel is looked up by. */
  lemma DerivedPeerIs(role: Role, own: IPv4)
    ensures var peer := DerivedPeer(role, own);
      && peer == own.(d := peer.d)
      && (peer.d as int - own.d as int - if role == Server then 1 else -1) % 256 == 0
    ensures LookupAddress(role, own) == if role == Server then own else DerivedPeer(role, own)
  {
  }

  predicate Aligned(ip: IPv4) { ip.d as nat % 4 == 0 }

  predicate SameBlock(x: IPv4, y: IPv4) { Value(x) / 4 == Value(y) / 4 }

  /** For every 4-aligned server address, the client's own address, the server's idea of its peer and
      the report's increment are one and the same address, the next one in the same block of four;
      and from it the client's monitor and the watcher get back to the server address. */
  lemma EndpointsAgree(server: IPv4)
    requires Aligned(server)
    ensures var client := ClientAddress(server);
      && client == DerivedPeer(Server, server) == Incremented(server)
      && Value(client) == Value(server) + 1 && SameBlock(client, server) && client != server
      && DerivedPeer(Client, client) == LookupAddress(Client, client) == LookupAddress(Server, server) == server
  {
    assert server.d <= 252;
  }

  /** In general the client's own address and the report's increment differ exactly when the last
      byte is 255, and the client is found again from its own address exactly when it is not. */
  lemma EndpointsDifferIff(server: IPv4)
    ensures ClientAddress(server) != Incremented(server) <==> server.d == 255
    ensures LookupAddress(Client, ClientAddress(server)) != server <==> server.d == 255
  {
  }

  // Link-local IPv6 addresses and the hardware addresses recovered from them.

  /** Flips the universal/local bit, the second lowest: exclusive or with 2. */
  function FlipLocal(x: Byte): Byte { if x % 4 < 2 then x + 2 else x - 2 }

  method GenerateIPv6LinkLocal(ip: IPv4) returns (buf: array<Byte>)
    ensures fresh(buf) && buf[..] == LinkLocal(ip)
  {
    buf := new Byte[16](i => 0);
    buf[0] := 0xfe;
    buf[1] := 0x80;
    buf[8] := FlipLocal(0);
    buf[9] := 0;
    buf[10] := ip.a;
    buf[11] := 0xff;
    buf[12] := 0xfe;
    buf[13] := ip.b;
    buf[14] := ip.c;
    buf[15] := ip.d;
    assert forall k :: 2 <= k < 8 ==> buf[k] == 0;
  }

  function LinkLocal(ip: IPv4): (r: seq<Byte>)
    ensures |r| == 16
  {
    [0xfe, 0x80, 0, 0, 0, 0, 0, 0, 2, 0, ip.a, 0xff, 0xfe, ip.b, ip.c, ip.d]
  }

  /** The hardware address in a modified EUI-64 interface identifier, if the address has one. */
  function MacOf(v6: seq<Byte>): Option<seq<Byte>> {
    if |v6| == 16 && v6[11] == 0xff && v6[12] == 0xfe
    then Some([FlipLocal(v6[8]), v6[9], v6[10], v6[13], v6[14], v6[15]])
    else None
  }

  /** It changes that bit and no other. */
  lemma FlipLocalIs(x: Byte)
    ensures FlipLocal(x) as nat / 2 % 2 != x as nat / 2 % 2
    ensures FlipLocal(x) as nat / 4 == x as nat / 4 && FlipLocal(x) as nat % 2 == x as nat % 2
  {
  }

  /** The modified EUI-64 of a hardware address. */
  function Eui64(mac: seq<Byte>): seq<Byte>
    requires |mac| == 6
  {
    [FlipLocal(mac[0]), mac[1], mac[2], 0xff, 0xfe, mac[3], mac[4], mac[5]]
  }

  /** Every hardware address is read back from a link-local address made of it. */
  lemma MacReadBack(mac: seq<Byte>)
    requires |mac| == 6
    ensures MacOf([0xfe, 0x80, 0, 0, 0, 0, 0, 0] + Eui64(mac)) == Some(mac)
  {
    assert FlipLocal(FlipLocal(mac[0])) == mac[0];
    assert mac == [mac[0], mac[1], mac[2], mac[3], mac[4], mac[5]];
  }

  /** The link-local address is fe80::/64 with the EUI-64 of 00:00 and the IPv4 address, so the monitor's
      key for a tunnel peer is 00:00 and the peer's IPv4 address. */
  lemma KeyOfLinkLocal(ip: IPv4)
    ensures LinkLocal(ip) == [0xfe, 0x80, 0, 0, 0, 0, 0, 0] + Eui64([0, 0, ip.a, ip.b, ip.c, ip.d])
    ensures MacOf(LinkLocal(ip)) == Some([0, 0, ip.a, ip.b, ip.c, ip.d])
  {
  }

  /** So link-local addresses, and keys, of different tunnel addresses differ. */
  lemma KeysDiffer(x: IPv4, y: IPv4)
    ensures MacOf(LinkLocal(x)) == MacOf(LinkLocal(y)) <==> x == y
    ensures LinkLocal(x) == LinkLocal(y) <==> x == y
  {
    KeyOfLinkLocal(x);
    KeyOfLinkLocal(y);
    var s, t := [0, 0, x.a, x.b, x.c, x.d], [0, 0, y.a, y.b, y.c, y.d];
    if s == t {
      assert s[2] == t[2] && s[3] == t[3] && s[4] == t[4] && s[5] == t[5];
    }
    if LinkLocal(x) == LinkLocal(y) {
      assert MacOf(LinkLocal(x)) == MacOf(LinkLocal(y));
    }
  }
}
