/** TScopedDelegateHandle (Delegate.h): an owner of a delegate handle that
  * unbinds it from its delegate when reset or destroyed. */
module Delegates {

  /** FDelegateHandle: an identifier, 0 when unset. */
  datatype DelegateHandle = DelegateHandle(id: nat)
  {
    predicate IsValid()
    {
      id != 0
    }
  }

  /** A handle after FDelegateHandle::Reset. */
  const Unset := DelegateHandle(0)

  /** A delegate, by the identifiers of the handles bound to it. A delegate
    * with a Remove(FDelegateHandle) member (a multicast delegate) unbinds
    * one handle; any other is unbound as a whole with Unbind. */
  class Delegate {
    const hasRemove: bool
    var bindings: set<nat>

    constructor (hasRemove: bool, bindings: set<nat>)
      ensures this.hasRemove == hasRemove && this.bindings == bindings
    {
      this.hasRemove := hasRemove;
      this.bindings := bindings;
    }

    method Remove(handle: DelegateHandle)
      modifies this
      ensures bindings == old(bindings) - {handle.id}
    {
      bindings := bindings - {handle.id};
    }

    method Unbind()
      modifies this
      ensures bindings == {}
    {
      bindings := {};
    }
  }

  /** The caller's FDelegateHandle variable, which the owning constructor
    * receives by rvalue reference and resets. */
  class HandleVariable {
    var handle: DelegateHandle

    constructor (handle: DelegateHandle)
      ensures this.handle == handle
    {
      this.handle := handle;
    }
  }

  class ScopedDelegateHandle {
    var delegate: Delegate?
    var handle: DelegateHandle

    /** The default constructor (Delegate.h:39): nothing owned. */
    constructor ()
      ensures delegate == null && handle == Unset
    {
      delegate := null;
      handle := Unset;
    }

    /** The owning constructor (Delegate.h:42-46): takes the handle out of
      * the caller's variable, which is left unset. */
    constructor Owning(delegate: Delegate, source: HandleVariable)
      modifies source
      ensures this.delegate == delegate && handle == old(source.handle)
      ensures source.handle == Unset
    {
      this.delegate := delegate;
      handle := source.handle;
      new;
      source.handle := Unset;
    }

    /** The move constructor (Delegate.h:50-53): takes the other's delegate
      * and releases the other. */
    constructor Moved(other: ScopedDelegateHandle)
      modifies other
      ensures delegate == old(other.delegate) && handle == old(other.handle)
      ensures other.delegate == null && other.handle == Unset
    {
      var otherDelegate := other.delegate;
      var otherHandle := other.Release();
      delegate := otherDelegate;
      handle := otherHandle;
    }

    /** IsValid (Delegate.h:95-98). */
    predicate IsValid()
      reads this
    {
      handle.IsValid()
    }

    /** Release (Delegate.h:68-74): gives up the handle without touching the
      * delegate. */
    method Release() returns (released: DelegateHandle)
      modifies this
      ensures released == old(handle)
      ensures delegate == null && handle == Unset && !IsValid()
    {
      released := handle;
      delegate := null;
      handle := Unset;
    }

    /** Reset (Delegate.h:77-93): with a delegate and a valid handle, the
      * handle is removed from the delegate (or the delegate unbound) and
      * both are cleared; otherwise nothing changes. */
    method Reset()
      modifies this, delegate
      ensures old(delegate) != null && old(handle).IsValid() ==>
        && delegate == null && handle == Unset
        && old(delegate).bindings ==
             (if old(delegate).hasRemove then old(delegate.bindings) - {old(handle).id} else {})
      ensures !(old(delegate) != null && old(handle).IsValid()) ==>
        && delegate == old(delegate) && handle == old(handle)
        && (delegate != null ==> delegate.bindings == old(delegate.bindings))
      ensures !IsValid() || delegate == null
      ensures old(delegate) != null && old(handle).IsValid() ==> old(handle).id !in old(delegate).bindings
    {
      if delegate != null && handle.IsValid() {
        if delegate.hasRemove {
          delegate.Remove(handle);
        } else {
          delegate.Unbind();
        }
        delegate := null;
        handle := Unset;
      }
    }

    /** The destructor (Delegate.h:55-58) is Reset. */
    method Destroy()
      modifies this, delegate
      ensures old(delegate) != null && old(handle).IsValid() ==>
        && delegate == null && handle == Unset
        && old(delegate).bindings ==
             (if old(delegate).hasRemove then old(delegate.bindings) - {old(handle).id} else {})
      ensures !(old(delegate) != null && old(handle).IsValid()) ==>
        && delegate == old(delegate) && handle == old(handle)
        && (delegate != null ==> delegate.bindings == old(delegate.bindings))
    {
      Reset();
    }

    /** Swap (Delegate.h:100-105): exchanges both fields. */
    method Swap(other: ScopedDelegateHandle)
      modifies this, other
      ensures other != this ==>
        && delegate == old(other.delegate) && handle == old(other.handle)
        && other.delegate == old(delegate) && other.handle == old(handle)
      ensures other == this ==> delegate == old(delegate) && handle == old(handle)
    {
      var d, h := delegate, handle;
      delegate, handle := other.delegate, other.handle;
      other.delegate, other.handle := d, h;
    }

    /** Assignment from an rvalue (Delegate.h:61-65): the parameter is move
      * constructed from the argument, swapped with this and destroyed, so
      * what this held before is reset and what the argument held is taken
      * over, also when the argument is this itself. */
    method MoveAssign(source: ScopedDelegateHandle)
      modifies this, source, delegate
      ensures delegate == old(source.delegate) && handle == old(source.handle)
      ensures source != this ==> source.delegate == null && source.handle == Unset
      ensures source != this && old(delegate) != null && old(handle).IsValid() ==>
        old(delegate).bindings ==
          (if old(delegate).hasRemove then old(delegate.bindings) - {old(handle).id} else {})
      ensures source != this && old(delegate) != null && !old(handle).IsValid() ==>
        old(delegate).bindings == old(delegate.bindings)
      ensures source == this && delegate != null ==> delegate.bindings == old(delegate.bindings)
    {
      var parameter := new ScopedDelegateHandle.Moved(source);
      Swap(parameter);
      parameter.Destroy();
    }
  }

  /** Taking ownership of a handle bound to a multicast delegate and
    * destroying the owner unbinds exactly that handle; the caller's variable
    * is unset from the start. */
  method ScopedHandleUnbindsOnDestruction() returns (callerHandle: DelegateHandle, wasValid: bool, remaining: set<nat>)
    ensures callerHandle == Unset && wasValid && remaining == {2}
  {
    var delegate := new Delegate(true, {1, 2});
    var variable := new HandleVariable(DelegateHandle(1));
    var scoped := new ScopedDelegateHandle.Owning(delegate, variable);
    callerHandle := variable.handle;
    wasValid := scoped.IsValid();
    scoped.Destroy();
    remaining := delegate.bindings;
  }

  /** A released handle stays bound: destroying the owner after Release
    * leaves the delegate as it was and hands the handle back. */
  method ReleasedHandleStaysBound() returns (released: DelegateHandle, remaining: set<nat>)
    ensures released == DelegateHandle(1) && remaining == {1, 2}
  {
    var delegate := new Delegate(true, {1, 2});
    var variable := new HandleVariable(DelegateHandle(1));
    var scoped := new ScopedDelegateHandle.Owning(delegate, variable);
    released := scoped.Release();
    scoped.Destroy();
    remaining := delegate.bindings;
  }

  /** Move assignment unbinds what the target held, and the moved handle is
    * unbound only when its new owner is destroyed. */
  method MoveAssignUnbindsPrevious() returns (afterAssign: set<nat>, afterDestroy: set<nat>)
    ensures afterAssign == {2} && afterDestroy == {}
  {
    var delegate := new Delegate(true, {1, 2});
    var first := new HandleVariable(DelegateHandle(1));
    var second := new HandleVariable(DelegateHandle(2));
    var target := new ScopedDelegateHandle.Owning(delegate, first);
    var source := new ScopedDelegateHandle.Owning(delegate, second);
    target.MoveAssign(source);
    afterAssign := delegate.bindings;
    source.Destroy();
    target.Destroy();
    afterDestroy := delegate.bindings;
  }

  /** A delegate without Remove is unbound as a whole. */
  method SingleCastUnbinds() returns (single: set<nat>)
    ensures single == {}
  {
    var singleCast := new Delegate(false, {7});
    var third := new HandleVariable(DelegateHandle(7));
    var owner := new ScopedDelegateHandle.Owning(singleCast, third);
    owner.Destroy();
    single := singleCast.bindings;
  }
}
