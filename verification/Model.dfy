/** The values the lock service passes around: deployment locks and their timestamps. */
module Model {

  datatype Option<+T> = None | Some(value: T)

  lemma Reassociate<T>(x: seq<T>, y: seq<T>, z: seq<T>)
    ensures x + (y + z) == (x + y) + z
  {
  }

  predicate IsLeapYear(year: nat) {
    year % 4 == 0 && (year % 100 != 0 || year % 400 == 0)
  }

  function DaysIn(year: nat, month: nat): nat {
    if month == 2 then (if IsLeapYear(year) then 29 else 28)
    else if month == 4 || month == 6 || month == 9 || month == 11 then 30
    else 31
  }

  /** A wall-clock reading as RFC 3339 writes it: a civil date and time with
      nanoseconds, and the zone offset in minutes. */
  datatype Reading = Reading(year: nat, month: nat, day: nat, hour: nat, minute: nat, second: nat,
                             nanos: nat, offset: int)
  {
    predicate Valid() {
      && year <= 9999 && 1 <= month <= 12 && 1 <= day <= DaysIn(year, month)
      && hour < 24 && minute < 60 && second < 60 && nanos < 1_000_000_000
      && -1440 < offset < 1440
    }
  }

  type Timestamp = r: Reading | r.Valid() witness Reading(1970, 1, 1, 0, 0, 0, 0, 0)

  /** A deployment lock held by a branch on a project. */
  datatype Lock = Lock(project: string, branch: string, createdAt: Timestamp, owner: string)
  {
    /** The identity the lock manager compares: branch and owner, never the timestamp. */
    predicate HeldBy(branch: string, owner: string) {
      this.branch == branch && this.owner == owner
    }
  }
}
