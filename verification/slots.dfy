/** The two manifest slots: which one counts, which one is written next, and why publishing is atomic. */
module Slots {
  import opened Bytes
  import opened ManifestCodec
  import opened Disk

  predicate IsSlot(n: Name) { n == SlotA || n == SlotB }

  function Other(n: Name): Name {
    if n == SlotA then SlotB else SlotA
  }

  function ReadSlot(d: Files, n: Name): Option<Manifest> {
    if n in d then Parse(d[n]) else None
  }

  /** chooseWinningSlot: the one valid slot, or of two the one with the higher epoch, slot A when they are equal. */
  function ChooseWinning(a: Option<Manifest>, b: Option<Manifest>): Option<Manifest> {
    if a.None? then b
    else if b.None? then a
    else if b.value.epoch > a.value.epoch then b
    else a
  }

  /** chooseInactiveSlot: the slot to write next. None when files are there but none of them parses. */
  function ChooseInactive(existsA: bool, a: Option<Manifest>, existsB: bool, b: Option<Manifest>): Option<Name> {
    if !existsA && !existsB then Some(SlotA)
    else if a.None? && b.None? then None
    else if a.None? then Some(SlotA)
    else if b.None? then Some(SlotB)
    else if b.value.epoch <= a.value.epoch then Some(SlotB)
    else Some(SlotA)
  }

  /** readManifest. */
  function Winner(d: Files): Option<Manifest> {
    ChooseWinning(ReadSlot(d, SlotA), ReadSlot(d, SlotB))
  }

  /** The slot the winning manifest lies in. */
  function WinningSlot(d: Files): Name
    requires Winner(d).Some?
  {
    var a, b := ReadSlot(d, SlotA), ReadSlot(d, SlotB);
    if a.None? then SlotB
    else if b.None? then SlotA
    else if b.value.epoch > a.value.epoch then SlotB
    else SlotA
  }

  /** The slot the probing path of publishManifest writes. */
  function Inactive(d: Files): Option<Name> {
    ChooseInactive(SlotA in d, ReadSlot(d, SlotA), SlotB in d, ReadSlot(d, SlotB))
  }

  function WinningEpoch(d: Files): u32 {
    if Winner(d).Some? then Winner(d).value.epoch else 0
  }

  /** The slot written next is never the one that counts: the probing path picks exactly the slot that the cached path
      picks, the other one than the winner. Without a winner there is a slot to write only in a store without slots. */
  lemma InactiveIsOther(d: Files)
    ensures Winner(d).Some? ==> Inactive(d) == Some(Other(WinningSlot(d)))
    ensures Winner(d).None? ==> (Inactive(d) == Some(SlotA) <==> SlotA !in d && SlotB !in d)
    ensures Winner(d).None? && Inactive(d).Some? ==> Inactive(d) == Some(SlotA)
  {
  }

  lemma WinnerIsRead(d: Files)
    requires Winner(d).Some?
    ensures IsSlot(WinningSlot(d)) && WinningSlot(d) in d && Parse(d[WinningSlot(d)]) == Winner(d)
  {
  }

  /** The manifest as it is written: the epoch is one more than the winner's. */
  function Next(d: Files, m: Manifest): Manifest
    requires WinningEpoch(d) + 1 < 0x1_0000_0000
  {
    m.(epoch := WinningEpoch(d) + 1)
  }

  /** Publishing is atomic. Whatever part of the new manifest has reached the disk, the old manifest still counts, in the
      same slot; once all of it has, the new one does, in the slot just written, and its epoch is higher. */
  lemma PublishAtomic(d: Files, m: Manifest, k: nat)
    requires Formed(m) && WinningEpoch(d) + 1 < 0x1_0000_0000
    requires Inactive(d).Some? && k <= |Serialise(Next(d, m))|
    ensures var slot, data := Inactive(d).value, Serialise(Next(d, m));
            var d' := d[slot := data[..k]];
            if k < |data| then Winner(d') == Winner(d) && (Winner(d).Some? ==> WinningSlot(d') == WinningSlot(d))
            else Winner(d') == Some(Next(d, m)) && WinningSlot(d') == slot && WinningEpoch(d') > WinningEpoch(d)
  {
    hide Serialise, Parse, Formed;
    FormedSize(m);
    var slot, m', data := Inactive(d).value, Next(d, m), Serialise(Next(d, m));
    var d' := d[slot := data[..k]];
    assert Formed(m') by { FormedEpoch(m, m'.epoch); }
    InactiveIsOther(d);
    if k < |data| {
      TornManifestRejected(m', k);
    } else {
      assert data[..k] == data;
      SerialiseThenParse(m');
    }
  }

  lemma FormedEpoch(m: Manifest, e: u32)
    requires Formed(m)
    ensures Formed(m.(epoch := e))
  {
  }

  lemma FormedSize(m: Manifest)
    requires Formed(m)
    ensures |m.ranges| <= MANIFEST_MAX_RANGES
  {
  }

  /** Files other than the slots do not decide the election. */
  lemma WinnerDepends(d: Files, d': Files)
    requires SlotA in d <==> SlotA in d'
    requires SlotB in d <==> SlotB in d'
    requires SlotA in d ==> d[SlotA] == d'[SlotA]
    requires SlotB in d ==> d[SlotB] == d'[SlotB]
    ensures Winner(d) == Winner(d') && Inactive(d) == Inactive(d')
    ensures Winner(d).Some? ==> WinningSlot(d) == WinningSlot(d')
  {
  }
}
