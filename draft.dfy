/**
 * Hand-over of a message draft and a target hospital between screens through the
 * browser's session storage: each is written once and consumed once.
 */
module MessageDraft {
  import opened Base

  const DraftKey: string := "messageDraft"
  const TargetKey: string := "messageTarget"

  /** The browser's `sessionStorage`. */
  class SessionStorage {
    var items: map<string, string>
    /** When set, every access throws (storage disabled, quota exceeded). */
    const failing: bool

    constructor (items: map<string, string>, failing: bool)
      ensures this.items == items && this.failing == failing
    {
      this.items := items;
      this.failing := failing;
    }
  }

  /** `setMessageDraft`: a failure is swallowed and leaves the storage as it was. */
  method SetMessageDraft(store: SessionStorage, text: string)
    modifies store
    ensures store.failing ==> store.items == old(store.items)
    ensures !store.failing ==> store.items == old(store.items)[DraftKey := text]
  {
    if !store.failing {
      store.items := store.items[DraftKey := text];
    }
  }

  /**
   * `consumeMessageDraft`: the stored draft, or `""` when none is stored or the storage
   * fails; a non-empty draft is removed, an empty one stays.
   */
  method ConsumeMessageDraft(store: SessionStorage) returns (t: string)
    modifies store
    ensures store.failing ==> t == "" && store.items == old(store.items)
    ensures !store.failing ==> t == (if DraftKey in old(store.items) then old(store.items)[DraftKey] else "")
    ensures !store.failing ==> store.items == if t != "" then old(store.items) - {DraftKey} else old(store.items)
  {
    if store.failing {
      return "";
    }
    t := if DraftKey in store.items then store.items[DraftKey] else "";
    if t != "" {
      store.items := store.items - {DraftKey};
    }
  }

  /** `setMessageTarget`. */
  method SetMessageTarget(store: SessionStorage, hospitalId: string)
    modifies store
    ensures store.failing ==> store.items == old(store.items)
    ensures !store.failing ==> store.items == old(store.items)[TargetKey := hospitalId]
  {
    if !store.failing {
      store.items := store.items[TargetKey := hospitalId];
    }
  }

  /**
   * `consumeMessageTarget`: `null` when absent or on failure; the stored id otherwise,
   * removed unless it is the empty string.
   */
  method ConsumeMessageTarget(store: SessionStorage) returns (r: Option<string>)
    modifies store
    ensures store.failing ==> r == None && store.items == old(store.items)
    ensures !store.failing ==> r == (if TargetKey in old(store.items) then Some(old(store.items)[TargetKey]) else None)
    ensures !store.failing ==> store.items == if Truthy(r) then old(store.items) - {TargetKey} else old(store.items)
  {
    if store.failing {
      return None;
    }
    r := if TargetKey in store.items then Some(store.items[TargetKey]) else None;
    if Truthy(r) {
      store.items := store.items - {TargetKey};
    }
  }

  /** A draft written and then consumed twice is returned once; the second consume gets `""`. */
  method DraftConsumedOnce(store: SessionStorage, text: string) returns (first: string, second: string)
    modifies store
    ensures !store.failing ==> first == text && second == ""
    ensures store.failing ==> first == "" && second == "" && store.items == old(store.items)
    ensures DraftKey !in old(store.items) ==> DraftKey !in store.items || text == ""
  {
    SetMessageDraft(store, text);
    first := ConsumeMessageDraft(store);
    second := ConsumeMessageDraft(store);
  }

  /** A target written and then consumed twice is returned once, unless it is `""`, which stays. */
  method TargetConsumedOnce(store: SessionStorage, hospitalId: string) returns (first: Option<string>, second: Option<string>)
    modifies store
    ensures !store.failing ==> first == Some(hospitalId)
    ensures !store.failing ==> second == if hospitalId == "" then Some("") else None
    ensures store.failing ==> first == None && second == None && store.items == old(store.items)
  {
    SetMessageTarget(store, hospitalId);
    first := ConsumeMessageTarget(store);
    second := ConsumeMessageTarget(store);
  }
}
