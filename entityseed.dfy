// SPEntitySeed: the minimal data needed to rebuild an entity of a known
// grid -- its level, its multi-index and the number of its partition.
//
// The default seed has level -1 and is invalid; the accessors may only be
// used on a valid seed.  In C++ the id and partition number of a default
// seed are left uninitialised; the model fixes them at zero, which no
// accessor can observe since all of them require validity.

module EntitySeeds {
  import opened MultiIndices

  datatype EntitySeed = EntitySeed(level_: int, id_: MultiIndex, partitionNumber_: nat)
  {
    predicate IsValid()
    {
      level_ >= 0
    }

    function Level(): (l: nat)
      requires IsValid()
    {
      level_
    }

    function Id(): (id: MultiIndex)
      requires IsValid()
    {
      id_
    }

    function PartitionNumber(): (n: nat)
      requires IsValid()
    {
      partitionNumber_
    }
  }

  /** The default constructor. */
  function DefaultSeed(dim: nat): (s: EntitySeed)
    ensures !s.IsValid()
    ensures |s.id_| == dim
  {
    EntitySeed(-1, Zeros(dim), 0)
  }

  /** The constructor from (level, id, partitionNumber). */
  function MakeSeed(level: int, id: MultiIndex, partitionNumber: nat): (s: EntitySeed)
    ensures s.IsValid() <==> level >= 0
    ensures s.IsValid() ==> s.Level() == level && s.Id() == id && s.PartitionNumber() == partitionNumber
  {
    EntitySeed(level, id, partitionNumber)
  }
}
