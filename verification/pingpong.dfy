/**
  The ping-pong pair of storage textures behind the scope's persistence.

  `SizeDependent::new` creates two window-sized textures A and B and two bind
  groups over them: `front` reads A (binding 0) and writes B (binding 1),
  `back` reads B and writes A. Every draw renders with `front` and then swaps
  the two bind groups, so each frame reads the texture the previous frame
  wrote.
 */
module PingPong {

  /** The two storage textures. */
  datatype Texture = A | B

  /** A texture bind group: the read-only texture at binding 0, the write-only one at binding 1. */
  datatype BindGroup = BindGroup(read: Texture, write: Texture)

  /** Width and height in pixels, as `window.inner_size()` reports them. */
  datatype Extent = Extent(width: nat, height: nat)

  /** The textures' size and the two bind groups over them. */
  datatype SizeDependent = SizeDependent(size: Extent, front: BindGroup, back: BindGroup)

  /** The texture the other one is paired with. */
  function Other(t: Texture): (o: Texture)
    ensures o != t
  {
    if t == A then B else A
  }

  /**
    The pairing every live `SizeDependent` keeps: `front` reads one texture
    and writes the other, and `back` does the opposite.
   */
  predicate Paired(sd: SizeDependent)
  {
    && sd.front.write == Other(sd.front.read)
    && sd.back == BindGroup(sd.front.write, sd.front.read)
  }

  /** `SizeDependent::new`: textures of the given size; `front` renders from A to B, `back` from B to A. */
  function NewSizeDependent(size: Extent): (sd: SizeDependent)
    ensures Paired(sd)
    ensures sd.size == size && sd.front.read == A
  {
    SizeDependent(size, BindGroup(A, B), BindGroup(B, A))
  }

  /** `std::mem::swap(&mut front, &mut back)`: the two bind groups change places over the same textures. */
  function Swap(sd: SizeDependent): (r: SizeDependent)
    ensures r.size == sd.size
    ensures r.front == sd.back && r.back == sd.front
  {
    SizeDependent(sd.size, sd.back, sd.front)
  }

  /**
    Swapping keeps the pairing, and the next draw reads the texture this draw
    wrote and writes the one it read.
   */
  lemma SwapHandsOver(sd: SizeDependent)
    requires Paired(sd)
    ensures Paired(Swap(sd))
    ensures Swap(sd).front.read == sd.front.write
    ensures Swap(sd).front.write == sd.front.read
  {
  }

  /** Two swaps restore the original bind groups. */
  lemma SwapTwice(sd: SizeDependent)
    ensures Swap(Swap(sd)) == sd
  {
  }

  /** The state after `n` draws. */
  function SwapN(sd: SizeDependent, n: nat): SizeDependent
  {
    if n == 0 then sd else Swap(SwapN(sd, n - 1))
  }

  /**
    After `n` draws from a fresh pair the pairing still holds and the next
    draw reads A exactly when `n` is even.
   */
  lemma {:induction false} SwapNFromNew(size: Extent, n: nat)
    ensures Paired(SwapN(NewSizeDependent(size), n))
    ensures SwapN(NewSizeDependent(size), n).front == if n % 2 == 0 then BindGroup(A, B) else BindGroup(B, A)
    ensures SwapN(NewSizeDependent(size), n).size == size
  {
    if n > 0 {
      SwapNFromNew(size, n - 1);
      SwapHandsOver(SwapN(NewSizeDependent(size), n - 1));
    }
  }
}
