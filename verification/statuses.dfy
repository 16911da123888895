/**
  The seven hourly status codes of the stored schedule. Each one says which
  half-hours of the hour are affected and how sure the outage is: certain
  (red in the image, "1" from the API) or possible (yellow, "10").
*/
module Statuses {

  datatype Status = Yes | No | First | Second | Maybe | MFirst | MSecond

  /** The code written to the document. */
  function Code(s: Status): string {
    match s
    case Yes => "yes"
    case No => "no"
    case First => "first"
    case Second => "second"
    case Maybe => "maybe"
    case MFirst => "mfirst"
    case MSecond => "msecond"
  }

  /** How sure an outage is. */
  datatype Signal = PowerOn | Certain | Possible

  /** What a status says: how sure, and which half-hours are affected. */
  datatype Reading = Reading(signal: Signal, first: bool, second: bool)

  /** Power on exactly when neither half is affected. */
  predicate Consistent(m: Reading) {
    (m.signal == PowerOn) == (!m.first && !m.second)
  }

  function ReadingOf(s: Status): (m: Reading)
    ensures Consistent(m)
  {
    match s
    case Yes => Reading(PowerOn, false, false)
    case No => Reading(Certain, true, true)
    case First => Reading(Certain, true, false)
    case Second => Reading(Certain, false, true)
    case Maybe => Reading(Possible, true, true)
    case MFirst => Reading(Possible, true, false)
    case MSecond => Reading(Possible, false, true)
  }

  /** The status that says `m`; inverse of ReadingOf. */
  function StatusOf(m: Reading): (s: Status)
    requires Consistent(m)
    ensures ReadingOf(s) == m
  {
    match m.signal
    case PowerOn => Yes
    case Certain => if m.first && m.second then No else if m.first then First else Second
    case Possible => if m.first && m.second then Maybe else if m.first then MFirst else MSecond
  }

  lemma StatusOfReading(s: Status)
    ensures StatusOf(ReadingOf(s)) == s
  {
  }

  /**
    The reading reported when both kinds of signal were looked for in both
    halves: a possible outage anywhere wins over a certain one, and a certain
    one wins over power on; the winning kind keeps its own halves.
  */
  function Strongest(certainFirst: bool, certainSecond: bool, possibleFirst: bool, possibleSecond: bool): (m: Reading)
    ensures Consistent(m)
    ensures m.signal == Possible <==> possibleFirst || possibleSecond
    ensures m.signal == Certain <==> !possibleFirst && !possibleSecond && (certainFirst || certainSecond)
    ensures m.signal == Possible ==> m.first == possibleFirst && m.second == possibleSecond
    ensures m.signal == Certain ==> m.first == certainFirst && m.second == certainSecond
  {
    if possibleFirst || possibleSecond then Reading(Possible, possibleFirst, possibleSecond)
    else if certainFirst || certainSecond then Reading(Certain, certainFirst, certainSecond)
    else Reading(PowerOn, false, false)
  }
}
