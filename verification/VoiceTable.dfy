/** kernel/audio.c: the table of voices and the handles that name them. */
module VoiceTable {
  import opened Words

  const AUDIO_VOICES := 16
  const GENERATIONS := 0xFFFF

  /** The generation given to claim number k: sixteen bits that count round and leave out zero. */
  function Stamp(k: nat): Half {
    k % GENERATIONS + 1
  }

  function Handle(index: nat, generation: Half): nat {
    index + 0x100 * generation
  }

  lemma HandleParts(index: nat, generation: Half)
    requires index < 0x100
    ensures var handle := Handle(index, generation);
            handle >= 0 && handle % 0x100 == index && handle / 0x100 % 0x1_0000 == generation
  {
  }

  /** What claim number k returned when it took the voice at `index`. */
  function HandleOf(index: nat, k: nat): nat {
    Handle(index, Stamp(k))
  }

  class Table {
    const active: array<bool>
    const generation: array<Half>
    var nextGeneration: Half

    /** How many claims there have been, and which of them each voice was last taken by. */
    ghost var claims: nat
    ghost var born: seq<int>

    ghost predicate Valid()
      reads this, active, generation
    {
      active.Length == AUDIO_VOICES && generation.Length == AUDIO_VOICES && |born| == AUDIO_VOICES &&
      nextGeneration == Stamp(claims) &&
      forall i :: 0 <= i < AUDIO_VOICES ==>
        (active[i] ==> 0 <= born[i]) && born[i] < claims && generation[i] == if born[i] < 0 then 0 else Stamp(born[i])
    }

    constructor ()
      ensures Valid() && fresh(active) && fresh(generation) && claims == 0
      ensures forall i :: 0 <= i < AUDIO_VOICES ==> !active[i]
    {
      active := new bool[AUDIO_VOICES](_ => false);
      generation := new Half[AUDIO_VOICES](_ => 0);
      nextGeneration := 1;
      born := seq(AUDIO_VOICES, _ => -1);
      claims := 0;
    }

    /** claim and publish: the first idle voice, under a new generation. Interrupts are held throughout. */
    method Claim() returns (handle: int)
      requires Valid()
      modifies this, active, generation
      ensures Valid()
      ensures handle == -1 <==> forall i :: 0 <= i < AUDIO_VOICES ==> old(active[i])
      ensures handle == -1 ==> unchanged(this, active, generation)
      ensures handle != -1 ==>
                var index := handle % 0x100;
                index < AUDIO_VOICES && !old(active[index]) && handle == HandleOf(index, old(claims)) &&
                claims == old(claims) + 1 &&
                active[..] == old(active[..])[index := true] && born == old(born)[index := old(claims)]
    {
      hide Handle;
      for index := 0 to AUDIO_VOICES
        invariant forall i :: 0 <= i < index ==> active[i]
        invariant unchanged(this, active, generation)
      {
        if !active[index] {
          active[index] := true;
          generation[index] := nextGeneration;
          HandleParts(index, nextGeneration);
          handle := Handle(index, nextGeneration);
          nextGeneration := (nextGeneration + 1) % 0x1_0000;
          if nextGeneration == 0 {
            nextGeneration := 1;
          }
          born := born[index := claims];
          claims := claims + 1;
          return;
        }
      }
      handle := -1;
    }

    /** voice_of: the voice a handle names, or -1. */
    method VoiceOf(handle: int) returns (voice: int)
      requires Valid()
      ensures voice == -1 || (0 <= voice < AUDIO_VOICES && active[voice] && handle >= 0)
      ensures voice != -1 ==> voice == handle % 0x100
      ensures forall index: nat, k: nat :: index < AUDIO_VOICES && handle == HandleOf(index, k) ==>
                (voice == index <==> active[index] && Stamp(k) == Stamp(born[index])) && (voice == index || voice == -1)
    {
      hide Stamp, Handle;
      var index, stamp := handle % 0x100, handle / 0x100 % 0x1_0000;
      forall i: nat, k: nat | i < AUDIO_VOICES && handle == HandleOf(i, k)
        ensures index == i && stamp == Stamp(k) && handle >= 0
      {
        HandleParts(i, Stamp(k));
      }
      if handle < 0 || index >= AUDIO_VOICES || generation[index] != stamp || !active[index] {
        return -1;
      }
      return index;
    }

    /** audio_stop: only the voice that the handle was given for, if it still holds the place. */
    method Stop(handle: int)
      requires Valid()
      modifies active
      ensures Valid()
      ensures forall i :: 0 <= i < AUDIO_VOICES ==>
                active[i] == (old(active[i]) && !(0 <= handle && handle % 0x100 == i &&
                generation[i] == handle / 0x100 % 0x1_0000))
    {
      var index, stamp := handle % 0x100, handle / 0x100 % 0x1_0000;
      if handle < 0 || index >= AUDIO_VOICES {
        return;
      }
      if generation[index] == stamp {
        active[index] := false;
      }
    }
  }

  /** A handle kept after its voice ended reaches a later one exactly when a multiple of 65535 claims lies between. */
  lemma StaleHandle(k: nat, later: nat)
    requires k <= later
    ensures Stamp(k) == Stamp(later) <==> (later - k) % GENERATIONS == 0
    ensures Stamp(k) == Stamp(later) && k != later ==> later - k >= GENERATIONS
  {
    var a, b := k / GENERATIONS, later / GENERATIONS;
    assert k == a * GENERATIONS + k % GENERATIONS && later == b * GENERATIONS + later % GENERATIONS;
  }
}
