/** The four volumes of scripture, in the fixed order the daily rotation cycles through. */
module Volumes {

  datatype Volume = Bible | BookOfMormon | DoctrineAndCovenants | PearlOfGreatPrice

  const AllVolumes: seq<Volume> := [Bible, BookOfMormon, DoctrineAndCovenants, PearlOfGreatPrice]

  /** The position of a volume in that order. */
  function Rank(v: Volume): (k: nat)
    ensures k < |AllVolumes| && AllVolumes[k] == v
  {
    match v
    case Bible => 0
    case BookOfMormon => 1
    case DoctrineAndCovenants => 2
    case PearlOfGreatPrice => 3
  }

  /** The key naming a volume's verse list: 'bible', 'bookOfMormon', ... */
  function Key(v: Volume): string {
    match v
    case Bible => "bible"
    case BookOfMormon => "bookOfMormon"
    case DoctrineAndCovenants => "doctrineAndCovenants"
    case PearlOfGreatPrice => "pearlOfGreatPrice"
  }
}
