/**
 * The MMA8452Q register map and scale-mode constants of the bm driver.
 *
 * Both are C enums: an enumerator with an initialiser takes that value, and
 * one without takes the previous enumerator's value plus one (the first one,
 * zero). The tables below list the enumerators in declaration order with
 * their initialisers, and `EnumValue` applies that rule, so every derived
 * address is computed exactly as the C compiler computes it.
 */
module Registers {

  datatype Init = Implicit | Explicit(value: int)

  datatype Enumerator = Enumerator(name: string, init: Init)

  /** The register enum, in declaration order. */
  const RegisterEnum: seq<Enumerator> := [
    Enumerator("MMA8452_STATUS", Explicit(0x00)),
    Enumerator("MMA8452_OUT_X_MSB", Implicit),
    Enumerator("MMA8452_OUT_X_LSB", Implicit),
    Enumerator("MMA8452_OUT_Y_MSB", Implicit),
    Enumerator("MMA8452_OUT_Y_LSB", Implicit),
    Enumerator("MMA8452_OUT_Z_MSB", Implicit),
    Enumerator("MMA8452_OUT_Z_LSB", Implicit),
    Enumerator("MMA8452_SYSMOD", Explicit(0x0B)),
    Enumerator("MMA8452_INT_SOURCE", Implicit),
    Enumerator("MMA8452_WHO_AM_I", Implicit),
    Enumerator("MMA8452_XYZ_DATA_CFG", Implicit),
    Enumerator("MMA8452_HP_FILTER_CUTOFF", Implicit),
    Enumerator("MMA8452_PL_STATUS", Implicit),
    Enumerator("MMA8452_PL_CFG", Implicit),
    Enumerator("MMA8452_PL_COUNT", Implicit),
    Enumerator("MMA8452_PL_BF_ZCOMP", Implicit),
    Enumerator("MMA8452_PL_P_L_THS_REG", Implicit),
    Enumerator("MMA8452_FF_MT_CFG", Implicit),
    Enumerator("MMA8452_FF_MT_SRC", Implicit),
    Enumerator("MMA8452_FF_MT_THS", Implicit),
    Enumerator("MMA8452_FF_MT_COUNT", Implicit),
    Enumerator("MMA8452_TRANSIENT_CFG", Explicit(0x1D)),
    Enumerator("MMA8452_TRANSIENT_SRC", Implicit),
    Enumerator("MMA8452_TRANSIENT_THS", Implicit),
    Enumerator("MMA8452_TRANSIENT_COUNT", Implicit),
    Enumerator("MMA8452_PULSE_CFG", Implicit),
    Enumerator("MMA8452_PULSE_SRC", Implicit),
    Enumerator("MMA8452_PULSE_THSX", Implicit),
    Enumerator("MMA8452_PULSE_THSY", Implicit),
    Enumerator("MMA8452_PULSE_THSZ", Implicit),
    Enumerator("MMA8452_PULSE_TMLT", Implicit),
    Enumerator("MMA8452_PULSE_LTCY", Implicit),
    Enumerator("MMA8452_PULSE_WIND", Implicit),
    Enumerator("MMA8452_ASLP_COUNT", Implicit),
    Enumerator("MMA8452_CTRL_REG1", Implicit),
    Enumerator("MMA8452_CTRL_REG2", Implicit),
    Enumerator("MMA8452_CTRL_REG3", Implicit),
    Enumerator("MMA8452_CTRL_REG4", Implicit),
    Enumerator("MMA8452_CTRL_REG5", Implicit),
    Enumerator("MMA8452_OFF_X", Implicit),
    Enumerator("MMA8452_OFF_Y", Implicit),
    Enumerator("MMA8452_OFF_Z", Implicit),
    Enumerator("MMA8452_REG_END", Implicit)
  ]

  /** The scale-mode enum, in declaration order. */
  const ModeEnum: seq<Enumerator> := [
    Enumerator("MODE_2G", Explicit(0)),
    Enumerator("MODE_4G", Implicit),
    Enumerator("MODE_8G", Implicit)
  ]

  /** The value C gives the `i`-th enumerator of `e`. */
  function EnumValue(e: seq<Enumerator>, i: nat): int
    requires i < |e|
  {
    match e[i].init
    case Explicit(v) => v
    case Implicit => if i == 0 then 0 else EnumValue(e, i - 1) + 1
  }

  /** Register addresses, each taken at its position in `RegisterEnum`. */
  const STATUS := EnumValue(RegisterEnum, 0)
  const OUT_X_MSB := EnumValue(RegisterEnum, 1)
  const OUT_X_LSB := EnumValue(RegisterEnum, 2)
  const OUT_Y_MSB := EnumValue(RegisterEnum, 3)
  const OUT_Y_LSB := EnumValue(RegisterEnum, 4)
  const OUT_Z_MSB := EnumValue(RegisterEnum, 5)
  const OUT_Z_LSB := EnumValue(RegisterEnum, 6)
  const SYSMOD := EnumValue(RegisterEnum, 7)
  const WHO_AM_I := EnumValue(RegisterEnum, 9)
  const XYZ_DATA_CFG := EnumValue(RegisterEnum, 10)
  const TRANSIENT_CFG := EnumValue(RegisterEnum, 21)
  const CTRL_REG1 := EnumValue(RegisterEnum, 34)
  const CTRL_REG2 := EnumValue(RegisterEnum, 35)
  const CTRL_REG4 := EnumValue(RegisterEnum, 37)
  const OFF_Z := EnumValue(RegisterEnum, 41)
  const REG_END := EnumValue(RegisterEnum, 42)

  /** Scale modes, each taken at its position in `ModeEnum`. */
  const MODE_2G := EnumValue(ModeEnum, 0)
  const MODE_4G := EnumValue(ModeEnum, 1)
  const MODE_8G := EnumValue(ModeEnum, 2)

  /** Before the first initialiser, enumerators count up from zero. */
  lemma {:induction false} CountFromZero(e: seq<Enumerator>, i: nat)
    requires i < |e|
    requires forall k :: 0 <= k <= i ==> e[k].init == Implicit
    ensures EnumValue(e, i) == i
  {
    if i > 0 {
      CountFromZero(e, i - 1);
    }
  }

  /**
   * Past an explicit initialiser, a run of enumerators without one counts
   * up by one per position.
   */
  lemma {:induction false} RunFromAnchor(e: seq<Enumerator>, a: nat, i: nat)
    requires a <= i < |e|
    requires e[a].init.Explicit?
    requires forall k :: a < k <= i ==> e[k].init == Implicit
    ensures EnumValue(e, i) == e[a].init.value + (i - a)
  {
    if i > a {
      RunFromAnchor(e, a, i - 1);
    }
  }

  /**
   * When every initialiser lies above the value of the enumerator before it,
   * the enum's values strictly increase, so no two enumerators share one.
   */
  lemma {:induction false} Increasing(e: seq<Enumerator>, i: nat, j: nat)
    requires forall k :: 0 < k < |e| && e[k].init.Explicit? ==> e[k].init.value > EnumValue(e, k - 1)
    requires i < j < |e|
    ensures EnumValue(e, i) < EnumValue(e, j)
  {
    if i < j - 1 {
      Increasing(e, i, j - 1);
    }
  }

  /** Where the register enum's initialisers stand. */
  lemma RegisterEnumShape()
    ensures |RegisterEnum| == 43
    ensures RegisterEnum[0].init == Explicit(0x00)
    ensures RegisterEnum[7].init == Explicit(0x0B)
    ensures RegisterEnum[21].init == Explicit(0x1D)
    ensures forall k :: 0 <= k < 43 && k != 0 && k != 7 && k != 21 ==> RegisterEnum[k].init == Implicit
  {
  }

  /** STATUS and the X sample registers stand where their constants read them. */
  lemma StatusAndXNames()
    ensures RegisterEnum[0] == Enumerator("MMA8452_STATUS", Explicit(0x00))
    ensures RegisterEnum[1] == Enumerator("MMA8452_OUT_X_MSB", Implicit)
    ensures RegisterEnum[2] == Enumerator("MMA8452_OUT_X_LSB", Implicit)
  {
  }

  /** The Y sample registers stand where their constants read them. */
  lemma YNames()
    ensures RegisterEnum[3] == Enumerator("MMA8452_OUT_Y_MSB", Implicit)
    ensures RegisterEnum[4] == Enumerator("MMA8452_OUT_Y_LSB", Implicit)
  {
  }

  /** The Z sample registers stand where their constants read them. */
  lemma ZNames()
    ensures RegisterEnum[5] == Enumerator("MMA8452_OUT_Z_MSB", Implicit)
    ensures RegisterEnum[6] == Enumerator("MMA8452_OUT_Z_LSB", Implicit)
  {
  }

  /** The system and configuration registers stand where their constants read them. */
  lemma SystemNames()
    ensures RegisterEnum[7] == Enumerator("MMA8452_SYSMOD", Explicit(0x0B))
    ensures RegisterEnum[9] == Enumerator("MMA8452_WHO_AM_I", Implicit)
    ensures RegisterEnum[10] == Enumerator("MMA8452_XYZ_DATA_CFG", Implicit)
    ensures RegisterEnum[21] == Enumerator("MMA8452_TRANSIENT_CFG", Explicit(0x1D))
  {
  }

  /** The control registers and the end of the map stand where their constants read them. */
  lemma ControlNames()
    ensures RegisterEnum[34] == Enumerator("MMA8452_CTRL_REG1", Implicit)
    ensures RegisterEnum[35] == Enumerator("MMA8452_CTRL_REG2", Implicit)
    ensures RegisterEnum[37] == Enumerator("MMA8452_CTRL_REG4", Implicit)
  {
  }

  /** OFF_Z and REG_END stand where their constants read them. */
  lemma EndNames()
    ensures RegisterEnum[41] == Enumerator("MMA8452_OFF_Z", Implicit)
    ensures RegisterEnum[42] == Enumerator("MMA8452_REG_END", Implicit)
  {
  }

  /** The positions the mode constants are taken from hold those names. */
  lemma ModeNames()
    ensures ModeEnum == [Enumerator("MODE_2G", Explicit(0)), Enumerator("MODE_4G", Implicit), Enumerator("MODE_8G", Implicit)]
  {
  }

  /** The sample registers sit at 0x01..0x06, right after STATUS at 0x00. */
  lemma SampleAddresses()
    ensures STATUS == 0x00
    ensures [OUT_X_MSB, OUT_X_LSB, OUT_Y_MSB, OUT_Y_LSB, OUT_Z_MSB, OUT_Z_LSB] == [0x01, 0x02, 0x03, 0x04, 0x05, 0x06]
  {
    RegisterEnumShape();
    RunFromAnchor(RegisterEnum, 0, 6);
    RunFromAnchor(RegisterEnum, 0, 5);
    RunFromAnchor(RegisterEnum, 0, 4);
    RunFromAnchor(RegisterEnum, 0, 3);
    RunFromAnchor(RegisterEnum, 0, 2);
    RunFromAnchor(RegisterEnum, 0, 1);
  }

  /** The addresses derived from the SYSMOD and TRANSIENT_CFG anchors. */
  lemma DerivedAddresses()
    ensures SYSMOD == 0x0B && WHO_AM_I == 0x0D && XYZ_DATA_CFG == 0x0E
    ensures TRANSIENT_CFG == 0x1D
    ensures CTRL_REG1 == 0x2A && CTRL_REG2 == 0x2B && CTRL_REG4 == 0x2D
    ensures OFF_Z == 0x31 && REG_END == 0x32
  {
    RegisterEnumShape();
    RunFromAnchor(RegisterEnum, 7, 9);
    RunFromAnchor(RegisterEnum, 7, 10);
    RunFromAnchor(RegisterEnum, 21, 34);
    RunFromAnchor(RegisterEnum, 21, 35);
    RunFromAnchor(RegisterEnum, 21, 37);
    RunFromAnchor(RegisterEnum, 21, 41);
    RunFromAnchor(RegisterEnum, 21, 42);
  }

  /** The scale modes are 0, 1 and 2. */
  lemma ModeValues()
    ensures MODE_2G == 0 && MODE_4G == 1 && MODE_8G == 2
  {
    RunFromAnchor(ModeEnum, 0, 2);
    RunFromAnchor(ModeEnum, 0, 1);
  }

  /** No two registers of the map share an address. */
  lemma AddressesDistinct(i: nat, j: nat)
    requires i < j < |RegisterEnum|
    ensures EnumValue(RegisterEnum, i) < EnumValue(RegisterEnum, j)
  {
    RegisterEnumShape();
    RunFromAnchor(RegisterEnum, 0, 6);
    RunFromAnchor(RegisterEnum, 7, 20);
    forall k | 0 < k < |RegisterEnum| && RegisterEnum[k].init.Explicit?
      ensures RegisterEnum[k].init.value > EnumValue(RegisterEnum, k - 1)
    {
      assert k == 7 || k == 21;
    }
    Increasing(RegisterEnum, i, j);
  }
}
