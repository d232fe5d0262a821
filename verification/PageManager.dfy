/** The page manager the kernel is configured with, as one object to call. */
module PageManager {
  import opened Sv48
  import Bitmap
  import HoleList
  import Managers

  datatype Manager = UseBitmap(bitmap: Bitmap.PhysMemManagerBitmap) | UseHoles(holes: HoleList.PhysMemManagerHole) {
    ghost function Repr(): (r: set<object>)
      reads if UseHoles? then {holes} else {}
      ensures UseHoles? ==> forall n: HoleList.HoleNode :: n in holes.nodes ==> n in r
    {
      match this
      case UseBitmap(b) => {b, b.taken}
      case UseHoles(h) => {h} + set n: HoleList.HoleNode | n in h.nodes
    }

    ghost predicate Valid()
      reads Repr()
    {
      match this
      case UseBitmap(b) => b.Valid()
      case UseHoles(h) => h.Valid() && h.unlinkTail
    }

    ghost function Model(): Managers.Mgr
      reads Repr()
    {
      match this
      case UseBitmap(b) => Managers.BitMgr(b.Model())
      case UseHoles(h) => Managers.HoleMgr(h.Model())
    }

    method AllocatePages(count: u64) returns (r: Option<nat>)
      requires Valid()
      modifies Repr()
      ensures Valid() && fresh(Repr() - old(Repr()))
      ensures (r, Model()) == Managers.Allocate(old(Model()), count)
    {
      match this
      case UseBitmap(b) => r := b.AllocatePages(count);
      case UseHoles(h) => r := h.AllocatePages(count);
    }

    method ReleasePages(addr: nat, count: u64)
      requires Valid() && (UseBitmap? ==> PageIndex(addr) + count <= Managers.Pages(Model()))
      modifies Repr()
      ensures Valid() && Repr() <= old(Repr())
      ensures Model() == Managers.Release(old(Model()), addr, count)
    {
      match this
      case UseBitmap(b) => b.ReleasePages(addr, count);
      case UseHoles(h) => h.ReleasePages(addr, count);
    }

    predicate AllReleased(): (b: bool)
      reads Repr()
      ensures b <==> Managers.Used(Model()) == 0
    {
      match this
      case UseBitmap(m) => m.AllReleased()
      case UseHoles(h) => h.AllReleased()
    }
  }
}
