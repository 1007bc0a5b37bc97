# apply_to_collection, modelled in Dafny

`pytorch_lightning/utilities/apply_func.py` holds `apply_to_collection(data, dtype,
function, *args, **kwargs)`. It is a recursive map over nested Python containers. Every
sub-value that passes `isinstance(·, dtype)` is handed to `function`. Every container that
does not pass is rebuilt with its own class from the walk of its parts. Everything else is
returned as it is. The same file defines `transfer_batch_to_device(batch, device)`: the same
walk with `dtype = torch.Tensor` and `function` = a copy of the tensor to `device`.

Files:

- `collections.dfy` (module `Collections`): the values the walk sees. `Value` has five
  constructors: `Atom` (any other object), `Str`, `Mapping` (items in iteration order),
  `NamedTuple` and `Sequence`. Each node carries its runtime class name `cls`. The module
  also defines key lookup in a mapping and `WellFormed` (every mapping has distinct keys).
- `apply_func.dfy` (module `ApplyFunc`): `Apply`, the walk, and the lemmas about one call
  and about the whole walk.
- `paths.dfy` (module `Paths`): paths of keys and positions, plain indexing along a path
  (`At`), and the descent the walk makes along a path (`Walk`). `ApplyAlongPath` states what
  the result holds at the end of every path.
- `transfer.dfy` (module `Transfer`): `transfer_batch_to_device` as an instance of the walk.

Modelling choices:

- `isinstance(data, dtype)` is taken to depend only on the class of `data`. So `dtype` is a predicate
  `dtype(c)` on class names, read "class `c` is `dtype` or a subclass of (one of) it".
  Rebuilding with `type(data)(...)` keeps the class, so a rebuilt container passes the test
  exactly when the original did. Composition depends on this assumption.
- The order of the `isinstance` tests is kept: 1. `dtype`, 2. Mapping, 3. named tuple,
  4. non-string Sequence, 5. anything else. A Python object is therefore a `Mapping` value if it is a Mapping at all,
  even if it is also a Sequence.
- `function` and its forwarded `*args`/`**kwargs` are one total function `f`.
- For `transfer_batch_to_device`: the device is an opaque value, `isTensor` is the
  `torch.Tensor` test, and `to(t, device)` stands for `t.to(device, non_blocking=True)`.

## Model

| member | source | states |
|---|---|---|
| `ApplyFunc.Apply` | pytorch_lightning/utilities/apply_func.py:7-38 | a value that fails the `dtype` test comes back with the same constructor and class (same keys in the same order for a mapping, same length otherwise); a string or other object that fails it comes back as it is |
| `ApplyFunc.MatchedHandedWhole` | pytorch_lightning/utilities/apply_func.py:25-26 | a value that passes the `dtype` test, even a container, is replaced by `f` of the whole value and is not descended into |
| `ApplyFunc.MappingRebuilt` | pytorch_lightning/utilities/apply_func.py:29-31 | a non-matching mapping gives a mapping of the same class with the same keys in the same order; a key is missing from the result exactly when it is missing from the input, and the value under each key is the walk of the input's value under that key |
| `ApplyFunc.NamedTupleRebuilt` | pytorch_lightning/utilities/apply_func.py:32-33 | a non-matching named tuple gives one of the same class and length whose field i is the walk of field i |
| `ApplyFunc.SequenceRebuilt` | pytorch_lightning/utilities/apply_func.py:34-35 | a non-matching non-string sequence gives one of the same class and length, in order, whose item i is the walk of item i |
| `ApplyFunc.LeftAsIs` | pytorch_lightning/utilities/apply_func.py:34-38 | a string, or any object that is not a Mapping or Sequence, that fails the test is returned unchanged; strings are never descended into |
| `ApplyFunc.FreeUnchanged` | pytorch_lightning/utilities/apply_func.py:22-38 | a value in which no visited node passes the test is returned unchanged, whatever `f` is |
| `ApplyFunc.FixedPoint` | pytorch_lightning/utilities/apply_func.py:22-38 | if `f` returns every matching value unchanged, the walk returns its input unchanged |
| `ApplyFunc.IdentityUnchanged` | pytorch_lightning/utilities/apply_func.py:22-38 | walking with the identity function returns the input |
| `ApplyFunc.Composition` | pytorch_lightning/utilities/apply_func.py:25-35 | if `f` maps matching values to matching values, walking with `f` and then `g` equals one walk with `g` after `f` |
| `ApplyFunc.Congruence` | pytorch_lightning/utilities/apply_func.py:25-26 | `function` is only called on matching values: two functions that agree on them give the same result |
| `ApplyFunc.WellFormedPreserved` | pytorch_lightning/utilities/apply_func.py:29-31 | rebuilding a mapping from its items keeps its keys distinct, so the result is well formed whenever `f` keeps the values it is given well formed |
| `Paths.ChildOfApply` | pytorch_lightning/utilities/apply_func.py:29-35 | for a non-matching value, indexing the result by a key or position gives the walk of the input's child there, and fails exactly when indexing the input fails |
| `Paths.ApplyAlongPath` | pytorch_lightning/utilities/apply_func.py:22-38 | for every path: if the descent reaches node x, the result holds the walk of x there; if a matching node x on the way stops the descent, the result holds what `f(x)` holds at the rest of the path; if the path leaves the input, it leaves the result too |
| `Paths.ReplacedAt` | pytorch_lightning/utilities/apply_func.py:25-26 | every matching node that the descent reaches is replaced by `f` of it at the same path |
| `Paths.KeptAt` | pytorch_lightning/utilities/apply_func.py:37-38 | every non-matching string or other object that the descent reaches is still at the same path, unchanged |
| `Paths.MatchReachable` | pytorch_lightning/utilities/apply_func.py:25-35 | a value with a visited matching node has a path along which the descent reaches a matching node |
| `Paths.FreeIffAlwaysUnchanged` | pytorch_lightning/utilities/apply_func.py:22-38 | a value is returned unchanged by every choice of `f` if and only if no node the walk visits passes the `dtype` test |
| `Transfer.TransferBatchToDevice` | pytorch_lightning/utilities/apply_func.py:41-44 | a tensor batch is moved whole; any other batch keeps its outer constructor, class and keys or length |
| `Transfer.TransferAt` | pytorch_lightning/utilities/apply_func.py:41-44 | every tensor that the descent reaches is replaced by its copy on the device, and every other non-container it reaches is kept |
| `Transfer.NoTensorUnchanged` | pytorch_lightning/utilities/apply_func.py:41-44 | a batch that holds no tensor is returned unchanged |
| `Transfer.TransferTwice` | pytorch_lightning/utilities/apply_func.py:41-44 | when `to` returns tensors, moving to one device and then to another is one walk that moves each tensor twice |
| `Transfer.TransferIdempotent` | pytorch_lightning/utilities/apply_func.py:41-44 | when `to` returns tensors and a second copy to the same device changes nothing, moving a batch to the same device twice equals moving it once |

## Left out

- The effect of `tensor.to(device, non_blocking=True)`: it is a call into torch with an asynchronous device copy. It is the opaque parameter `to`, and nothing is modelled about tensors beyond their class.
- Python's type system. A metaclass `__instancecheck__`, a runtime-checkable Protocol or an instance `__class__` attribute can make `isinstance` look at more than the class; the model does not. The `isinstance` tests are the classification into the five `Value` constructors plus the `dtype` predicate on class names. The subclass relation is folded into that predicate.
- The duck-typed named-tuple test `hasattr(data, '_fields')`: named tuples have their own constructor.
- Failure of `type(data)(...)`. The model's rebuilding always succeeds with the same class. In Python it raises for containers whose constructor does not take a dict or a list, such as `range` or `defaultdict`.
- Object identity and aliasing: values have no identity, so "unchanged" and "returns the input" mean `==`-equal. Python returns a fresh container at every non-matching Mapping, named tuple or Sequence, while leaves and the results of `function` are shared by reference, so `apply_to_collection([t], int, lambda x: x)` is not its input although its `[0]` is `t`. `function` is taken to be pure: the order and number of its calls (one per place a shared object is reached, in depth-first `items()` order) and its side effects are not modelled.
- Exceptions raised by `function`, and the `RecursionError` on very deep or self-containing containers. `f` is total and values are finite trees.
- Iteration order of `data.items()`: the model keeps the items' order, and its lemmas speak of keys and of positions only.
- `bytes` and other non-string Sequences are modelled like lists. Sets are not Sequences in Python and are `Atom` values in the model, returned unchanged.
- The import of `Mapping` and `Sequence` from `collections` on line 1, which newer Pythons reject, and the `torch` import.
- Distributed training, GPU selection and launcher behaviour: none of it is implemented in `apply_func.py`.
