/** Kinds of components and the table of their names, from `icalcomponent.c`. */
module ComponentKinds {
  import opened CText

  datatype Kind =
    | VEvent | VTodo | VJournal | VCalendar | VAgenda | VFreeBusy | VTimezone | VAlarm
    | XStandard | XDaylight | XComponent | VSchedule | VCar | VCommand | VQuery | VReply
    | XLicInvalid | XLicMimePart | AnyComponent | XRoot | VAvailability | XAvailable
    | VPoll | VVoter | XVote | VPatch | XPatch | NoComponent
    | XAttach | XAudioAlarm | XDisplayAlarm | XEmailAlarm | XProcedureAlarm

  /** The kinds in the order of `component_map` */
  const COMPONENT_MAP: seq<Kind> := [
    VEvent, VTodo, VJournal, VCalendar, VAgenda, VFreeBusy, VTimezone, VAlarm,
    XStandard, XDaylight, XComponent, VSchedule, VCar, VCommand, VQuery, VReply,
    XLicInvalid, XLicMimePart, AnyComponent, XRoot, VAvailability, XAvailable,
    VPoll, VVoter, XVote, VPatch, XPatch, NoComponent
  ]

  /** The names in `component_map`; five kinds have no entry there */
  function Name(kind: Kind): string {
    match kind
    case VEvent => "VEVENT"
    case VTodo => "VTODO"
    case VJournal => "VJOURNAL"
    case VCalendar => "VCALENDAR"
    case VAgenda => "VAGENDA"
    case VFreeBusy => "VFREEBUSY"
    case VTimezone => "VTIMEZONE"
    case VAlarm => "VALARM"
    case XStandard => "STANDARD"
    case XDaylight => "DAYLIGHT"
    case XComponent => "X"
    case VSchedule => "SCHEDULE"
    case VCar => "VCAR"
    case VCommand => "VCOMMAND"
    case VQuery => "VQUERY"
    case VReply => "VREPLY"
    case XLicInvalid => "X-LIC-UNKNOWN"
    case XLicMimePart => "X-LIC-MIME-PART"
    case AnyComponent => "ANY"
    case XRoot => "XROOT"
    case VAvailability => "VAVAILABILITY"
    case XAvailable => "AVAILABLE"
    case VPoll => "VPOLL"
    case VVoter => "VVOTER"
    case XVote => "VOTE"
    case VPatch => "VPATCH"
    case XPatch => "PATCH"
    case NoComponent => ""
    case XAttach => ""
    case XAudioAlarm => ""
    case XDisplayAlarm => ""
    case XEmailAlarm => ""
    case XProcedureAlarm => ""
  }

  /** The kind has an entry with a name */
  predicate Named(kind: Kind) {
    kind !in {NoComponent, XAttach, XAudioAlarm, XDisplayAlarm, XEmailAlarm, XProcedureAlarm}
  }

  function Upper(c: char): char {
    if 'a' <= c <= 'z' then c - 32 as char else c
  }

  /** `strncasecmp(s, n, strlen(n)) == 0` */
  predicate StartsWith(s: string, n: string) {
    |n| <= |s| && forall i :: 0 <= i < |n| ==> Upper(s[i]) == Upper(n[i])
  }

  function FirstMatch(s: string, i: nat): Kind
    requires i < |COMPONENT_MAP|
    decreases |COMPONENT_MAP| - i
  {
    if i == |COMPONENT_MAP| - 1 || StartsWith(s, Name(COMPONENT_MAP[i])) then COMPONENT_MAP[i]
    else FirstMatch(s, i + 1)
  }

  function KindOf(s: string): Kind {
    FirstMatch(s, 0)
  }

  /** `icalcomponent_string_to_kind` for a string that is present */
  method StringToKind(s: string) returns (kind: Kind)
    ensures kind == KindOf(s)
  {
    hide Name, StartsWith;
    TableEnd();
    var i := 0;
    while COMPONENT_MAP[i] != NoComponent
      invariant 0 <= i < |COMPONENT_MAP|
      invariant KindOf(s) == FirstMatch(s, i)
      decreases |COMPONENT_MAP| - i
    {
      if StartsWith(s, Name(COMPONENT_MAP[i])) {
        return COMPONENT_MAP[i];
      }
      i := i + 1;
    }
    kind := NoComponent;
  }

  /** `icalcomponent_kind_to_string` */
  method KindToString(kind: Kind) returns (name: Option<string>)
    ensures name == if kind in COMPONENT_MAP && kind != NoComponent then Some(Name(kind)) else None
  {
    hide *;
    TableEnd();
    var i := 0;
    while COMPONENT_MAP[i] != NoComponent
      invariant 0 <= i < |COMPONENT_MAP|
      invariant forall j :: 0 <= j < i ==> COMPONENT_MAP[j] != kind
      decreases |COMPONENT_MAP| - i
    {
      if COMPONENT_MAP[i] == kind {
        return Some(Name(COMPONENT_MAP[i]));
      }
      i := i + 1;
    }
    name := None;
  }

  /**
    `icalcomponent_kind_is_valid`. The loop compares the end of the table before it stops
    there, so ICAL_NO_COMPONENT passes as well.
   */
  method KindIsValid(kind: Kind) returns (valid: bool)
    ensures valid <==> kind in COMPONENT_MAP
    ensures valid <==> Named(kind) || kind == NoComponent
  {
    hide *;
    TableHolds(kind);
    TableEnd();
    var i := 0;
    while true
      invariant 0 <= i < |COMPONENT_MAP|
      invariant forall j :: 0 <= j < i ==> COMPONENT_MAP[j] != kind
      decreases |COMPONENT_MAP| - i
    {
      if COMPONENT_MAP[i] == kind {
        return true;
      }
      i := i + 1;
      if COMPONENT_MAP[i - 1] == NoComponent {
        return false;
      }
    }
  }

  // ------------------------------------------------------------------------------------
  // The table

  function Place(kind: Kind): nat {
    match kind
    case VEvent => 0
    case VTodo => 1
    case VJournal => 2
    case VCalendar => 3
    case VAgenda => 4
    case VFreeBusy => 5
    case VTimezone => 6
    case VAlarm => 7
    case XStandard => 8
    case XDaylight => 9
    case XComponent => 10
    case VSchedule => 11
    case VCar => 12
    case VCommand => 13
    case VQuery => 14
    case VReply => 15
    case XLicInvalid => 16
    case XLicMimePart => 17
    case AnyComponent => 18
    case XRoot => 19
    case VAvailability => 20
    case XAvailable => 21
    case VPoll => 22
    case VVoter => 23
    case XVote => 24
    case VPatch => 25
    case XPatch => 26
    case NoComponent => 27
    case XAttach => 28
    case XAudioAlarm => 28
    case XDisplayAlarm => 28
    case XEmailAlarm => 28
    case XProcedureAlarm => 28
  }

  lemma PlaceOf(kind: Kind)
    requires Named(kind)
    ensures Place(kind) < |COMPONENT_MAP| - 1 && COMPONENT_MAP[Place(kind)] == kind
  {
  }

  /** The table holds every kind but five */
  lemma TableHolds(kind: Kind)
    ensures kind in COMPONENT_MAP <==> Named(kind) || kind == NoComponent
  {
    if Named(kind) {
      PlaceOf(kind);
    } else if kind == NoComponent {
      assert COMPONENT_MAP[27] == NoComponent;
    }
  }

  /** No kind stands in the table twice */
  lemma PlaceAt(i: nat)
    requires i < |COMPONENT_MAP|
    ensures Place(COMPONENT_MAP[i]) == i
  {
    if i < 14 {
      assert Place(COMPONENT_MAP[i]) == i;
    } else {
      assert Place(COMPONENT_MAP[i]) == i;
    }
  }

  lemma TableEnd()
    ensures |COMPONENT_MAP| == 28
    ensures forall i :: 0 <= i < |COMPONENT_MAP| ==> (COMPONENT_MAP[i] == NoComponent <==> i == |COMPONENT_MAP| - 1)
  {
    forall i | 0 <= i < |COMPONENT_MAP| ensures COMPONENT_MAP[i] == NoComponent <==> i == |COMPONENT_MAP| - 1 {
      PlaceAt(i);
    }
  }

  // ------------------------------------------------------------------------------------
  // Names are told apart by their first letters

  function Letter(s: string, i: nat): char {
    if i < |s| then Upper(s[i]) else NUL
  }

  /** The only kind whose name can start `s`, when `s` does not start with an X */
  function Guess(s: string): Kind {
    var b, c, d := Letter(s, 1), Letter(s, 2), Letter(s, 3);
    match Letter(s, 0)
    case 'V' => (
      match b
      case 'E' => VEvent
      case 'T' => if c == 'O' then VTodo else VTimezone
      case 'J' => VJournal
      case 'C' => if c == 'O' then VCommand else if d == 'L' then VCalendar else VCar
      case 'A' => if c == 'G' then VAgenda else if c == 'L' then VAlarm else VAvailability
      case 'F' => VFreeBusy
      case 'Q' => VQuery
      case 'R' => VReply
      case 'P' => if c == 'O' then VPoll else VPatch
      case 'V' => VVoter
      case _ => XVote)
    case 'S' => if b == 'T' then XStandard else VSchedule
    case 'D' => XDaylight
    case 'A' => if b == 'N' then AnyComponent else XAvailable
    case 'P' => XPatch
    case _ => NoComponent
  }

  predicate NamedX(kind: Kind) {
    kind in {XComponent, XLicInvalid, XLicMimePart, XRoot}
  }

  lemma Letters(s: string, n: string)
    requires StartsWith(s, n)
    ensures |n| > 0 ==> Letter(s, 0) == Upper(n[0])
    ensures |n| > 1 ==> Letter(s, 1) == Upper(n[1])
    ensures |n| > 2 ==> Letter(s, 2) == Upper(n[2])
    ensures |n| > 3 ==> Letter(s, 3) == Upper(n[3])
  {
  }

  lemma GuessesRight(s: string, kind: Kind)
    requires Named(kind) && StartsWith(s, Name(kind))
    ensures NamedX(kind) <==> Letter(s, 0) == 'X'
    ensures !NamedX(kind) ==> Guess(s) == kind
  {
    hide StartsWith, Letter;
    Letters(s, Name(kind));
  }

  lemma {:induction false} FirstMatchAt(s: string, i: nat, p: nat)
    requires i <= p < |COMPONENT_MAP|
    requires p == |COMPONENT_MAP| - 1 || StartsWith(s, Name(COMPONENT_MAP[p]))
    requires forall j :: i <= j < p ==> !StartsWith(s, Name(COMPONENT_MAP[j]))
    ensures FirstMatch(s, i) == COMPONENT_MAP[p]
    decreases p - i
  {
    hide Name, StartsWith;
    if i < p {
      FirstMatchAt(s, i + 1, p);
    }
  }

  lemma StartsWithX(s: string)
    ensures StartsWith(s, Name(XComponent)) <==> Letter(s, 0) == 'X'
  {
  }

  /** A kind that no other name can hide is found wherever it stands in the table */
  lemma MatchedKind(s: string, kind: Kind)
    requires Named(kind) && StartsWith(s, Name(kind)) && (!NamedX(kind) || kind == XComponent)
    ensures KindOf(s) == kind
  {
    hide Name, StartsWith, Guess, Letter, Place, FirstMatch, NamedX, Named;
    GuessesRight(s, kind);
    PlaceOf(kind);
    XIsNamedX();
    forall j | 0 <= j < Place(kind) ensures !StartsWith(s, Name(COMPONENT_MAP[j])) {
      var other := COMPONENT_MAP[j];
      PlaceAt(j);
      if StartsWith(s, Name(other)) {
        NamedAt(j);
        GuessesRight(s, other);
        assert NamedX(other) && kind == XComponent;
        EarlyNames(j);
      }
    }
    FirstMatchAt(s, 0, Place(kind));
  }

  lemma XIsNamedX()
    ensures NamedX(XComponent) && Named(XComponent) && Place(XComponent) == 10
    ensures forall kind :: NamedX(kind) ==> Named(kind)
  {
  }

  lemma NamedAt(i: nat)
    requires i < |COMPONENT_MAP| - 1
    ensures Named(COMPONENT_MAP[i])
  {
    PlaceAt(i);
  }

  /** The names that start with an X come after the entry X */
  lemma EarlyNames(j: nat)
    requires j < 10
    ensures !NamedX(COMPONENT_MAP[j])
  {
  }

  /**
    The kind of a name, without the table: a name stands for the kind whose entry starts it,
    whatever the order of the table, except that every name that starts with an X is an
    X-component. The private kinds X-LIC-UNKNOWN, X-LIC-MIME-PART and XROOT are never found,
    and neither are the kinds without an entry.
   */
  lemma KindOfName(s: string, kind: Kind)
    requires kind != NoComponent
    ensures KindOf(s) == kind <==>
            Named(kind) && StartsWith(s, Name(kind)) && (!NamedX(kind) || kind == XComponent)
  {
    hide Name, StartsWith, Guess, Letter, NamedX, KindOf, Named;
    if Named(kind) && StartsWith(s, Name(kind)) && (!NamedX(kind) || kind == XComponent) {
      MatchedKind(s, kind);
    }
    if KindOf(s) == kind {
      FoundStarts(s);
      if NamedX(kind) {
        XIsNamedX();
        GuessesRight(s, kind);
        StartsWithX(s);
        MatchedKind(s, XComponent);
      }
    }
  }

  /** What is found stands in the table, and its name starts the string */
  lemma FoundStarts(s: string)
    ensures KindOf(s) in COMPONENT_MAP
    ensures KindOf(s) != NoComponent ==> Named(KindOf(s)) && StartsWith(s, Name(KindOf(s)))
  {
    hide Named;
    FoundFrom(s, 0);
    TableHolds(KindOf(s));
  }

  lemma {:induction false} FoundFrom(s: string, i: nat)
    requires i < |COMPONENT_MAP|
    ensures FirstMatch(s, i) in COMPONENT_MAP
    ensures FirstMatch(s, i) != NoComponent ==> StartsWith(s, Name(FirstMatch(s, i)))
    decreases |COMPONENT_MAP| - i
  {
    hide Name, StartsWith;
    TableEnd();
    if i < |COMPONENT_MAP| - 1 && !StartsWith(s, Name(COMPONENT_MAP[i])) {
      FoundFrom(s, i + 1);
    }
  }

  /** Nothing is found exactly when no entry starts the string */
  lemma NoKindOfName(s: string)
    ensures KindOf(s) == NoComponent <==> forall kind :: Named(kind) ==> !StartsWith(s, Name(kind))
  {
    hide Name, StartsWith, KindOf, NamedX;
    FoundStarts(s);
    forall kind | Named(kind) && StartsWith(s, Name(kind)) ensures KindOf(s) != NoComponent {
      XIsNamedX();
      if NamedX(kind) {
        GuessesRight(s, kind);
        StartsWithX(s);
        MatchedKind(s, XComponent);
      } else {
        MatchedKind(s, kind);
      }
    }
  }

  /** A kind has a printed name that is read back as the kind, except three private kinds and the unnamed ones */
  lemma KindRoundTrip(kind: Kind)
    ensures Named(kind) && KindOf(Name(kind)) == kind <==>
            kind !in {XLicInvalid, XLicMimePart, XRoot, NoComponent,
                      XAttach, XAudioAlarm, XDisplayAlarm, XEmailAlarm, XProcedureAlarm}
  {
    hide Name, KindOf;
    if kind != NoComponent {
      SelfStart(Name(kind));
      KindOfName(Name(kind), kind);
    }
  }

  lemma SelfStart(s: string)
    ensures StartsWith(s, s)
  {
  }

  /** The kinds that can be read, by the texts that name them */
  predicate IsNamedBy(kind: Kind, s: string) {
    match kind
    case VEvent => s == "VEVENT"
    case VTodo => s == "VTODO"
    case VJournal => s == "VJOURNAL"
    case VCalendar => s == "VCALENDAR"
    case VAgenda => s == "VAGENDA"
    case VFreeBusy => s == "VFREEBUSY"
    case VTimezone => s == "VTIMEZONE"
    case VAlarm => s == "VALARM"
    case XStandard => s == "STANDARD"
    case XDaylight => s == "DAYLIGHT"
    case XComponent => s == "X"
    case VSchedule => s == "SCHEDULE"
    case VCar => s == "VCAR"
    case VCommand => s == "VCOMMAND"
    case VQuery => s == "VQUERY"
    case VReply => s == "VREPLY"
    case AnyComponent => s == "ANY"
    case VAvailability => s == "VAVAILABILITY"
    case XAvailable => s == "AVAILABLE"
    case VPoll => s == "VPOLL"
    case VVoter => s == "VVOTER"
    case XVote => s == "VOTE"
    case VPatch => s == "VPATCH"
    case XPatch => s == "PATCH"
    case _ => false
  }

  lemma NamedByIs(kind: Kind, s: string)
    requires IsNamedBy(kind, s)
    ensures Name(kind) == s
    ensures kind !in {XLicInvalid, XLicMimePart, XRoot, NoComponent,
                      XAttach, XAudioAlarm, XDisplayAlarm, XEmailAlarm, XProcedureAlarm}
  {
  }

  lemma ReadByName(kind: Kind, s: string)
    requires IsNamedBy(kind, s)
    ensures KindOf(s) == kind && Name(kind) == s
  {
    hide *;
    NamedByIs(kind, s);
    KindRoundTrip(kind);
  }
}
