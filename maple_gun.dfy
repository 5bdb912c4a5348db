/**
  The light-gun port selector of the Maple driver state (maple_gun_enable,
  maple_gun_disable and maple_gun_read_pos in maple_utils.c). Only the three
  fields these routines touch are modelled.
*/
module MapleGun {

  /** MAPLE_EOK and MAPLE_EFAIL: success and failure return codes. */
  const MapleEOk := 0
  const MapleEFail := -1

  /** The gun_port value meaning "no port selected for light-gun capture". */
  const NoGunPort := -1

  /** maple_gun_enable accepts ports 0..3. */
  const GunPortCount := 4

  /** The part of maple_state that the light-gun routines read and write. */
  class MapleState {
    var gunPort: int
    var gunX: int
    var gunY: int

    /** The selector is either "none" or a port the enable routine accepts. */
    predicate Valid()
      reads this
    {
      NoGunPort <= gunPort < GunPortCount
    }

    constructor ()
      ensures Valid()
      ensures gunPort == NoGunPort && gunX == 0 && gunY == 0
    {
      gunPort := NoGunPort;
      gunX, gunY := 0, 0;
    }

    /** maple_gun_enable: select `port` for capture when it is 0..3, otherwise fail and change nothing. */
    method GunEnable(port: int) returns (rv: int)
      modifies this`gunPort
      ensures rv == MapleEOk <==> 0 <= port < GunPortCount
      ensures rv == MapleEOk || rv == MapleEFail
      ensures gunPort == if 0 <= port < GunPortCount then port else old(gunPort)
      ensures old(Valid()) ==> Valid()
    {
      if port >= 0 && port < GunPortCount {
        gunPort := port;
        return MapleEOk;
      }
      return MapleEFail;
    }

    /** maple_gun_disable: deselect the gun port. */
    method GunDisable()
      modifies this`gunPort
      ensures gunPort == NoGunPort && Valid()
    {
      gunPort := NoGunPort;
    }

    /** maple_gun_read_pos: the last captured position, read without changing anything. */
    method GunReadPos() returns (x: int, y: int)
      ensures x == gunX && y == gunY
    {
      x := gunX;
      y := gunY;
    }
  }
}
