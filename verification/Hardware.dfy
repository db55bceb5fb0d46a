/** Console models, operating modes and the CGB speed mode with the clock bits it selects. */
module Hardware {
  import opened Prelude

  datatype ConsoleModel = GameBoy | GameBoyPocket | GameBoyLight | GameBoyColor | GameBoyAdvance {
    predicate IsCgbFamily() {
      GameBoyColor? || GameBoyAdvance?
    }
  }

  datatype OperatingMode = DmgMode | CgbMode | GbCompatible | CgbDmgExt {
    predicate EnablesCgbHighSpeedSerial() {
      CgbMode? || CgbDmgExt?
    }
  }

  datatype CgbSpeedMode = Normal | Double {

    function TimerIncrement(): nat {
      match this
      case Normal => 1
      case Double => 1
    }

    /** Weight of the divider bit whose falling edge clocks the APU frame sequencer: bit 12 or 13. */
    function DivApuWeight(): (w: pos)
      ensures CounterBit(w)
    {
      match this
      case Normal => 4096
      case Double => 8192
    }
  }
}
