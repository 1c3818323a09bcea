/** One switched load: its identity, rating, priority, mode and schedule window. */
module Loads {
  import opened Common

  datatype Mode = FixedOff | FixedOn | AutoOff | AutoOn

  predicate IsAuto(m: Mode) { m.AutoOff? || m.AutoOn? }

  predicate IsOn(m: Mode) { m.FixedOn? || m.AutoOn? }

  // A mode travels and is stored as its number.

  function ModeOf(b: Byte): Mode {
    if b == 1 then FixedOn else if b == 2 then AutoOff else if b == 3 then AutoOn else FixedOff
  }

  function ModeByte(m: Mode): Byte {
    match m case FixedOff => 0 case FixedOn => 1 case AutoOff => 2 case AutoOn => 3
  }

  datatype PowerType = AC | DC

  /** A float as far as the checks on it can tell: a number, or NaN or infinity. */
  datatype Float = Finite(value: real) | NotFinite

  predicate FiniteNonNegative(f: Float) { f.Finite? && f.value >= 0.0 }

  datatype AutoSchedule = AutoSchedule(enabled: bool, startHour: Byte, startMinute: Byte, endHour: Byte,
                                       endMinute: Byte)

  const NO_SCHEDULE := AutoSchedule(false, 0, 0, 0, 0)

  /** The constructor clears the times of a disabled schedule. */
  function MakeSchedule(enabled: bool, sh: Byte, sm: Byte, eh: Byte, em: Byte): AutoSchedule {
    if enabled then AutoSchedule(true, sh, sm, eh, em) else NO_SCHEDULE
  }

  predicate ValidWindow(sh: Byte, sm: Byte, eh: Byte, em: Byte) {
    sh <= 23 && sm <= 59 && eh <= 23 && em <= 59 && sh * 60 + sm != eh * 60 + em
  }

  predicate ValidSchedule(s: AutoSchedule) {
    s.enabled ==> ValidWindow(s.startHour, s.startMinute, s.endHour, s.endMinute)
  }

  datatype LoadId = LoadId(mac: MacAddress, pin: Byte)

  /** The value of a load, as copied into and out of the vectors that own loads. */
  datatype LoadRecord = LoadRecord(
    id: LoadId,
    name: string,
    watts: real,
    priority: Word,
    powerType: PowerType,
    mode: Mode,
    schedule: AutoSchedule,
    rejection: Byte)

  function PinOf(l: LoadRecord): Byte { l.id.pin }

  /** What every setter keeps: a fixed load has no schedule, an AUTO load's schedule is cleared or a real window. */
  predicate LoadInv(l: LoadRecord) {
    && l.watts >= 0.0
    && (l.schedule == NO_SCHEDULE || (l.schedule.enabled && ValidSchedule(l.schedule)))
    && (!IsAuto(l.mode) ==> l.schedule == NO_SCHEDULE)
  }

  function WithMode(l: LoadRecord, m: Mode): LoadRecord {
    l.(mode := m, schedule := if IsAuto(m) then l.schedule else NO_SCHEDULE)
  }

  /** The load after a schedule request, and whether the request was accepted. */
  function WithSchedule(l: LoadRecord, s: AutoSchedule): (LoadRecord, bool) {
    if !IsAuto(l.mode) then (l, false)
    else if !s.enabled then (l.(schedule := NO_SCHEDULE), true)
    else if !ValidSchedule(s) then (l, false)
    else (l.(schedule := s), true)
  }

  lemma SettersKeepLoadInv(l: LoadRecord, m: Mode, s: AutoSchedule)
    requires LoadInv(l)
    ensures LoadInv(WithMode(l, m)) && LoadInv(WithSchedule(l, s).0)
    ensures WithSchedule(l, s).1 <==> IsAuto(l.mode) && ValidSchedule(s)
    ensures WithMode(l, m).mode == m && (IsAuto(m) ==> WithMode(l, m).schedule == l.schedule)
    ensures WithSchedule(l, s).1 && s.enabled ==> WithSchedule(l, s).0.schedule == s
    ensures WithSchedule(l, s).1 && !s.enabled ==> !WithSchedule(l, s).0.schedule.enabled
    ensures !WithSchedule(l, s).1 ==> WithSchedule(l, s).0 == l
  {
  }

  /** A window runs from one minute of the day to another one. */
  lemma WindowsAreMinutes(sh: Byte, sm: Byte, eh: Byte, em: Byte)
    ensures ValidWindow(sh, sm, eh, em) <==>
            && (exists s :: 0 <= s < 1440 && sh as int == s / 60 && sm as int == s % 60)
            && (exists e :: 0 <= e < 1440 && eh as int == e / 60 && em as int == e % 60)
            && (sh, sm) != (eh, em)
  {
    MinuteOfDay(sh, sm);
    MinuteOfDay(eh, em);
  }

  lemma MinuteOfDay(hour: Byte, minute: Byte)
    ensures hour <= 23 && minute <= 59 <==>
            exists s :: 0 <= s < 1440 && hour as int == s / 60 && minute as int == s % 60
  {
    if hour <= 23 && minute <= 59 {
      var s := hour * 60 + minute;
      assert 0 <= s < 1440 && hour as int == s / 60 && minute as int == s % 60;
    }
  }

  /** The numbers of modes: the low bit says on, the next one AUTO; other numbers read as fixed-off. */
  lemma ModeNumbers(m: Mode, b: Byte)
    ensures ModeByte(m) < 4 && ModeOf(ModeByte(m)) == m
    ensures IsOn(m) <==> ModeByte(m) % 2 == 1
    ensures IsAuto(m) <==> ModeByte(m) / 2 == 1
    ensures ModeByte(ModeOf(b)) == if b < 4 then b else 0
  {
  }

  /** A load object whose setters change it in place. */
  class Load {
    const id: LoadId
    var name: string
    var watts: real
    var priority: Word
    var powerType: PowerType
    var mode: Mode
    var schedule: AutoSchedule
    var rejection: Byte

    function Record(): LoadRecord
      reads this
    {
      LoadRecord(id, name, watts, priority, powerType, mode, schedule, rejection)
    }

    constructor (id: LoadId, name: string, watts: Float, priority: Word, powerType: PowerType, mode: Mode)
      ensures Record() == LoadRecord(id, name, if FiniteNonNegative(watts) then watts.value else 0.0,
                                     priority, powerType, mode, NO_SCHEDULE, 0)
      ensures LoadInv(Record())
    {
      this.id, this.name, this.priority, this.powerType, this.mode := id, name, priority, powerType, mode;
      this.rejection, this.schedule, this.watts := 0, NO_SCHEDULE, 0.0;
      new;
      var valid := SetPowerRatingWatts(watts);
    }

    /** A handle on a load that lives in a vector. */
    constructor At(l: LoadRecord)
      ensures Record() == l
    {
      id, name, watts, priority := l.id, l.name, l.watts, l.priority;
      powerType, mode, schedule, rejection := l.powerType, l.mode, l.schedule, l.rejection;
    }

    method SetPowerRatingWatts(w: Float) returns (accepted: bool)
      modifies this`watts
      ensures accepted <==> FiniteNonNegative(w)
      ensures watts == if accepted then w.value else old(watts)
    {
      match w
      case NotFinite => return false;
      case Finite(value) =>
        if value < 0.0 {
          return false;
        }
        watts := value;
        return true;
    }

    method SetMode(m: Mode)
      modifies this`mode, this`schedule
      ensures Record() == WithMode(old(Record()), m)
    {
      mode := m;
      if !IsAuto(mode) {
        schedule := NO_SCHEDULE;
      }
    }

    method SetSchedule(s: AutoSchedule) returns (accepted: bool)
      modifies this`schedule
      ensures (Record(), accepted) == WithSchedule(old(Record()), s)
    {
      if !IsAuto(mode) {
        return false;
      }
      if !s.enabled {
        schedule := NO_SCHEDULE;
        return true;
      }
      if s.startHour > 23 || s.startMinute > 59 || s.endHour > 23 || s.endMinute > 59 {
        return false;
      }
      if s.startHour * 60 + s.startMinute == s.endHour * 60 + s.endMinute {
        return false;
      }
      schedule := s;
      return true;
    }
  }
}
