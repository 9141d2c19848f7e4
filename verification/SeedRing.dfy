/** The ring of precomputed (seed, value) tuples as a value: where the next tuple is
    written, where the next one is read, and how many are waiting in between. */
module SeedRing {
  import opened Bits

  datatype Ring<T> = Ring(slots: seq<T>, read: nat, write: nat, available: nat) {

    predicate Valid() {
      && read < |slots|
      && available <= |slots|
      && write == (read + available) % |slots|
    }

    function Next(p: nat): nat { if p + 1 == |slots| then 0 else p + 1 }

    /** The tuples waiting to be handed out, oldest first. */
    function Live(): (r: seq<T>)
      requires Valid()
      ensures |r| == available
    {
      seq(available, i requires 0 <= i < available => slots[(read + i) % |slots|])
    }

    function Put(t: T): Ring<T>
      requires Valid()
    {
      Ring(slots[write := t], read, Next(write), available + 1)
    }

    function Take(): Ring<T>
      requires Valid() && available > 0
    {
      Ring(slots, Next(read), write, available - 1)
    }

    /** Writing appends to what is waiting and overwrites no waiting tuple. */
    lemma PutLive(t: T)
      requires Valid() && available < |slots|
      ensures Put(t).Valid()
      ensures Put(t).Live() == Live() + [t]
    {
      Wrap(read + available, |slots|);
      Wrap(read + available + 1, |slots|);
      forall i | 0 <= i < available
        ensures Put(t).Live()[i] == Live()[i]
      {
        Wrap(read + i, |slots|);
      }
    }

    /** Reading removes the oldest waiting tuple. */
    lemma TakeLive()
      requires Valid() && available > 0
      ensures Take().Valid()
      ensures Live() == [slots[read]] + Take().Live()
    {
      Wrap(read + available, |slots|);
      Wrap(read, |slots|);
      Wrap(Next(read) + available - 1, |slots|);
      forall i | 0 <= i < available - 1
        ensures Live()[i + 1] == Take().Live()[i]
      {
        Wrap(read + i + 1, |slots|);
        Wrap(Next(read) + i, |slots|);
      }
    }
  }
}
