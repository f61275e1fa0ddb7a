/**
 * The entities of the attendance dashboard (src/types/index.ts).
 *
 * A JavaScript `Date` is modelled by the two texts the pages ever print or
 * parse it through: its calendar day (`format(d, 'yyyy-MM-dd')`) and its
 * time of day (`format(d, 'HH:mm')`).
 */
module Types {
  import opened Wrappers
  import opened Seqs

  /** `UserRole`; `DutyOfficer` is the 'Penanggung Jawab Piket' role. */
  datatype Role = HR | DutyOfficer

  /** `AttendanceStatus`. */
  datatype Status = OnTime | Late | NotMarked

  /** The `'event' | 'weekly-class'` tag of an occurrence or record. */
  datatype OccurrenceKind = EventKind | WeeklyClassKind

  datatype Timestamp = Timestamp(day: string, time: string)

  /** The current time of day, `format(new Date(), 'HH:mm')`, which is never empty. */
  type Clock = t: string | t != [] witness "00:00"

  datatype Participant = Participant(id: string, name: string, email: string, department: string)

  /** An `Event`; its `type` is always `'event'`, so it is not stored. */
  datatype Event = Event(
    id: string,
    name: string,
    description: string,
    startDate: Timestamp,
    endDate: Timestamp,
    attendanceEnabled: bool)

  /** A `WeeklyClass`; its `type` is always `'weekly-class'`, so it is not stored. */
  datatype WeeklyClass = WeeklyClass(
    id: string,
    name: string,
    topic: string,
    description: string,
    date: Timestamp,
    startTime: string,
    endTime: string)

  datatype AttendanceRecord = AttendanceRecord(
    id: string,
    participantId: string,
    participantName: string,
    eventId: string,
    eventType: OccurrenceKind,
    isPresent: bool,
    status: Status,
    checkInTime: Option<Timestamp>)

  /** The text a status is displayed and exported as. */
  function StatusText(s: Status): (t: string)
    ensures t != []
  {
    match s
    case OnTime => "On time"
    case Late => "Late"
    case NotMarked => "Not Marked"
  }

  /** The ids of a roster, in roster order. */
  function ParticipantIds(participants: seq<Participant>): seq<string> {
    Map(participants, (p: Participant) => p.id)
  }
}

/**
 * The process-wide state of src/contexts/AppContext.tsx: the active role,
 * the three lists the pages replace, and the fixed participant roster.
 */
module AppStore {
  import opened Types

  class Store {
    var role: Role
    var events: seq<Event>
    var weeklyClasses: seq<WeeklyClass>
    var records: seq<AttendanceRecord>
    const participants: seq<Participant>

    /** The provider starts with the HR role and the seed lists. */
    constructor (events: seq<Event>, weeklyClasses: seq<WeeklyClass>,
                 records: seq<AttendanceRecord>, participants: seq<Participant>)
      ensures this.role == HR
      ensures this.events == events && this.weeklyClasses == weeklyClasses
      ensures this.records == records && this.participants == participants
    {
      this.role := HR;
      this.events := events;
      this.weeklyClasses := weeklyClasses;
      this.records := records;
      this.participants := participants;
    }

    /** `setUserRole`: switches the role and nothing else. */
    method SetRole(r: Role)
      modifies this`role
      ensures role == r
    {
      role := r;
    }
  }
}
