/** `transfer_batch_to_device(batch, device)`: the walk with `dtype = torch.Tensor` and
 *  `function = to`, where `to(tensor)` is `tensor.to(device, non_blocking=True)`.
 *
 *  The device is an opaque value of type `D`; `isTensor(c)` reads "class `c` is
 *  `torch.Tensor` or a subclass of it"; `to(t, device)` stands for the device copy,
 *  whose effect on the tensor is not modelled.
 */
module Transfer {
  import opened Collections
  import opened ApplyFunc
  import opened Paths

  function TransferBatchToDevice<A, K, D>(batch: Value<A, K>, device: D, isTensor: ClassName -> bool,
                                          to: (Value<A, K>, D) -> Value<A, K>): (r: Value<A, K>)
    ensures isTensor(batch.cls) ==> r == to(batch, device)
    ensures !isTensor(batch.cls) ==> SameOuterShape(r, batch)
  {
    Apply(batch, isTensor, t => to(t, device))
  }

  /** Every tensor the walk reaches is replaced by its copy on `device`, and every
   *  other non-container it reaches is kept as it is. */
  lemma TransferAt<A, K, D>(batch: Value<A, K>, device: D, isTensor: ClassName -> bool,
                            to: (Value<A, K>, D) -> Value<A, K>, path: seq<Step<K>>)
    requires Walk(batch, isTensor, path).Found?
    ensures var x := Walk(batch, isTensor, path).node;
      var r := TransferBatchToDevice(batch, device, isTensor, to);
      && (isTensor(x.cls) ==> At(r, path) == Some(to(x, device)))
      && (!isTensor(x.cls) && !x.IsContainer() ==> At(r, path) == Some(x))
  {
    var x := Walk(batch, isTensor, path).node;
    FoundIsAt(batch, isTensor, path);
    if isTensor(x.cls) {
      ReplacedAt(batch, isTensor, t => to(t, device), path);
    } else if !x.IsContainer() {
      KeptAt(batch, isTensor, t => to(t, device), path);
    }
  }

  /** A batch that holds no tensor comes back unchanged. */
  lemma NoTensorUnchanged<A, K, D>(batch: Value<A, K>, device: D, isTensor: ClassName -> bool,
                                   to: (Value<A, K>, D) -> Value<A, K>)
    requires Free(batch, isTensor)
    ensures TransferBatchToDevice(batch, device, isTensor, to) == batch
  {
    FreeUnchanged(batch, isTensor, t => to(t, device));
  }

  /** When `to` returns tensors, moving a batch to `first` and then to `second` is one
   *  walk that moves each tensor twice. */
  lemma TransferTwice<A, K, D>(batch: Value<A, K>, first: D, second: D, isTensor: ClassName -> bool,
                               to: (Value<A, K>, D) -> Value<A, K>)
    requires forall t: Value<A, K>, dev: D :: isTensor(t.cls) ==> isTensor(to(t, dev).cls)
    ensures TransferBatchToDevice(TransferBatchToDevice(batch, first, isTensor, to), second, isTensor, to)
         == Apply(batch, isTensor, t => to(to(t, first), second))
  {
    var f, g := t => to(t, first), t => to(t, second);
    Composition(batch, isTensor, f, g);
    Congruence(batch, isTensor, Then(f, g), t => to(to(t, first), second));
  }

  /** When `to` returns tensors and moving a tensor to a device it is already on
   *  changes nothing, moving a batch to the same device twice is moving it once. */
  lemma TransferIdempotent<A, K, D>(batch: Value<A, K>, device: D, isTensor: ClassName -> bool,
                                    to: (Value<A, K>, D) -> Value<A, K>)
    requires forall t: Value<A, K>, dev: D :: isTensor(t.cls) ==> isTensor(to(t, dev).cls)
    requires forall t: Value<A, K> :: isTensor(t.cls) ==> to(to(t, device), device) == to(t, device)
    ensures TransferBatchToDevice(TransferBatchToDevice(batch, device, isTensor, to), device, isTensor, to)
         == TransferBatchToDevice(batch, device, isTensor, to)
  {
    TransferTwice(batch, device, device, isTensor, to);
    Congruence(batch, isTensor, t => to(to(t, device), device), t => to(t, device));
  }
}
