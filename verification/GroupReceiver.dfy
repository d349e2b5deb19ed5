// The receiving half of a group channel: decrypted messages and recalls queue per conversation and are applied
// to the record store one at a time, each acked once its apply has settled.
module GroupReceiver {
  import opened Wrappers
  import opened Vault
  import opened EndToEnd
  import LM = LifetimeModel
  import Lifetime

  class Receiver {
    const device: Device
    const manager: Lifetime.LifetimeManager
    var applyChains: map<string, seq<Message>>
    var acks: set<Message>

    constructor (device: Device, manager: Lifetime.LifetimeManager)
      ensures this.device == device && this.manager == manager && applyChains == map[] && acks == {}
    {
      this.device, this.manager, applyChains, acks := device, manager, map[], {};
    }

    // This object is the receiving side of world `w`.
    ghost predicate Holds(w: World)
      reads this, manager
    {
      w.life == manager.Contents() && w.chains == applyChains && w.toAck == acks
    }

    method OnGroupMessage(m: Message, ghost w: World)
      requires Holds(w) && device.decode(m).Some?
      requires Allowed(device, w, Receive(m))
      modifies this
      ensures Holds(Next(device, w, Receive(m)))
    {
      EnqueueApply(device.decode(m).value.conversation, m);
    }

    method EnqueueApply(conversation: string, m: Message)
      modifies this`applyChains
      ensures applyChains == old(applyChains)[conversation := Chain(old(applyChains), conversation) + [m]]
    {
      var prev := if conversation in applyChains then applyChains[conversation] else [];
      applyChains := applyChains[conversation := prev + [m]];
    }

    // The oldest apply of a conversation runs; `ok` is whether it got through to the store.
    method SettleNext(conversation: string, ok: bool, now: int, ghost w: World)
      requires Holds(w) && Chain(applyChains, conversation) != []
      requires device.decode(Chain(applyChains, conversation)[0]).Some?
      modifies this, manager
      ensures Holds(SettleHead(device, w, conversation, ok, now))
    {
      var chain := applyChains[conversation];
      var m := chain[0];
      applyChains := applyChains[conversation := chain[1..]];
      if ok {
        match device.decode(m).value {
          case Keep(_, meta, plaintext) =>
            var r := manager.StoreIncoming(device.key, meta, plaintext, false, now);
          case Recall(c, target, own) =>
            ApplyInboundRevoke(c, target, own);
        }
        acks := acks + {m};
      }
    }

    method ApplyInboundRevoke(conversation: string, target: string, own: bool)
      modifies manager
      ensures manager.Contents() == ApplyRecall(old(manager.Contents()), Recall(conversation, target, own))
    {
      if target !in manager.store {
        return;
      }
      var rec := manager.store[target];
      if rec.conversationId != conversation || rec.kind != UntilRevoked {
        return;
      }
      if rec.outgoing && !own {
        return;
      }
      manager.Revoke(target);
    }
  }
}
