/**
  The Maple bus address codec (maple_addr and maple_raddr in maple_utils.c).
  A bus address is one byte: the port in bits 7:6, the unit in bits 5:0, where
  bit 5 stands for the main unit (unit 0) and bits 0-4 stand one-hot for the
  sub-units 1-5.
*/
module MapleAddress {
  import opened Wrappers

  /** MAPLE_PORT_COUNT and MAPLE_UNIT_COUNT. */
  const PortCount := 4
  const UnitCount := 6

  /** The six unit bits of an address. */
  const UnitMask: bv8 := 0x3f

  datatype PortUnit = PortUnit(port: int, unit: int)

  /** maple_raddr found none of the six unit bits set ("invalid unit id"). */
  datatype AddrError = InvalidUnitId(addr: bv8)

  /** The address bit that names `unit`. */
  function UnitBit(unit: int): bv8
    requires 0 <= unit < UnitCount
  {
    match unit
    case 0 => 0x20
    case 1 => 0x01
    case 2 => 0x02
    case 3 => 0x04
    case 4 => 0x08
    case 5 => 0x10
  }

  /** The order in which maple_raddr tests the unit bits: higher is tested first. */
  function Priority(unit: int): int
    requires 0 <= unit < UnitCount
  {
    if unit == 0 then UnitCount else unit
  }

  /** Exactly one bit of `b` is set, and it is one of the six unit bits. */
  predicate OneUnitBit(b: bv8) {
    b != 0 && b & UnitMask == b && b & (b - 1) == 0
  }

  /** maple_addr: pack a (port, unit) pair into a bus address. */
  function Addr(port: int, unit: int): (addr: bv8)
    requires 0 <= port < PortCount && 0 <= unit < UnitCount
    ensures addr >> 6 == port as bv8
    ensures OneUnitBit(addr & UnitMask)
    ensures addr & UnitBit(unit) != 0
  {
    var a: bv8 := (port as bv8) << 6;
    if unit != 0 then a | ((1 << (unit - 1)) & 0x1f) else a | 0x20
  }

  /**
    maple_raddr: unpack a bus address. The port is always bits 7:6; the unit is
    the first of bit 5, 4, 3, 2, 1, 0 that is set, so an address with several
    unit bits set decodes to the highest-priority one. No unit bit set is an error.
  */
  function Raddr(addr: bv8): (r: Result<PortUnit, AddrError>)
    ensures r.Failure? <==> addr & UnitMask == 0
    ensures r.Failure? ==> r.error == InvalidUnitId(addr)
    ensures r.Success? ==> 0 <= r.value.port < PortCount && r.value.port as bv8 == addr >> 6
    ensures r.Success? ==>
      && 0 <= r.value.unit < UnitCount
      && addr & UnitBit(r.value.unit) != 0
      && forall v | 0 <= v < UnitCount && Priority(v) > Priority(r.value.unit) :: addr & UnitBit(v) == 0
  {
    var port := ((addr >> 6) & 3) as int;
    if addr & 0x20 != 0 then Success(PortUnit(port, 0))
    else if addr & 0x10 != 0 then Success(PortUnit(port, 5))
    else if addr & 0x08 != 0 then Success(PortUnit(port, 4))
    else if addr & 0x04 != 0 then Success(PortUnit(port, 3))
    else if addr & 0x02 != 0 then Success(PortUnit(port, 2))
    else if addr & 0x01 != 0 then Success(PortUnit(port, 1))
    else Failure(InvalidUnitId(addr))
  }

  /** Decoding an encoded pair gives the pair back. */
  lemma {:induction false} RaddrOfAddr(port: int, unit: int)
    requires 0 <= port < PortCount && 0 <= unit < UnitCount
    ensures Raddr(Addr(port, unit)) == Success(PortUnit(port, unit))
  {
    var a := Addr(port, unit);
  }

  /** Encoding a decoded single-unit address gives the address back. */
  lemma {:induction false} AddrOfRaddr(addr: bv8)
    requires OneUnitBit(addr & UnitMask)
    ensures Raddr(addr).Success?
    ensures Addr(Raddr(addr).value.port, Raddr(addr).value.unit) == addr
  {
  }

  /** Distinct pairs get distinct addresses. */
  lemma {:induction false} AddrInjective(p1: int, u1: int, p2: int, u2: int)
    requires 0 <= p1 < PortCount && 0 <= u1 < UnitCount
    requires 0 <= p2 < PortCount && 0 <= u2 < UnitCount
    requires Addr(p1, u1) == Addr(p2, u2)
    ensures p1 == p2 && u1 == u2
  {
    RaddrOfAddr(p1, u1);
    RaddrOfAddr(p2, u2);
  }
}
