/**
  Column encryption with rotating keys. `rotate_key` takes its locks one after
  the other, so rotations and encryptions interleave step by step; what every
  interleaving keeps is proved over all runs of that step relation.
*/
module KeyRotation {
  import opened Wrappers

  type Material = seq<bv8>

  datatype KeyError = NotFound(version: nat) | EncryptionFailed | DecryptionFailed

  type Result<+T> = Wrappers.Result<T, KeyError>

  // ---- The cipher ----

  /** Each byte combined with the key byte at its position, cycling through the key. */
  function Xor(text: Material, key: Material, n: nat): Material
    requires key != [] && n <= |text|
  {
    if n == 0 then [] else Xor(text, key, n - 1) + [text[n - 1] ^ key[(n - 1) % |key|]]
  }

  function CipherEncrypt(plain: Material, key: Material): Result<Material> {
    if key == [] then Err(EncryptionFailed) else Ok(Xor(plain, key, |plain|))
  }

  function CipherDecrypt(cipher: Material, key: Material): Result<Material> {
    if key == [] then Err(DecryptionFailed) else Ok(Xor(cipher, key, |cipher|))
  }

  lemma {:induction false} XorAt(text: Material, key: Material, n: nat)
    requires key != [] && n <= |text|
    ensures |Xor(text, key, n)| == n
    ensures forall i :: 0 <= i < n ==> Xor(text, key, n)[i] == text[i] ^ key[i % |key|]
  {
    if n > 0 { XorAt(text, key, n - 1); }
  }

  lemma XorTwice(b: bv8, k: bv8)
    ensures (b ^ k) ^ k == b
  {
  }

  /** The cipher contract: decryption undoes encryption under the same key; only an empty key is refused. */
  lemma CipherRoundTrip(plain: Material, key: Material)
    ensures CipherEncrypt(plain, key).Ok? <==> key != []
    ensures key != [] ==> CipherDecrypt(CipherEncrypt(plain, key).value, key) == Ok(plain)
    ensures key != [] ==> var c := CipherEncrypt(plain, key).value;
                          |c| == |plain| && forall i :: 0 <= i < |plain| ==> c[i] == plain[i] ^ key[i % |key|]
  {
    if key != [] {
      var c := Xor(plain, key, |plain|);
      XorAt(plain, key, |plain|);
      XorAt(c, key, |c|);
      var back := Xor(c, key, |c|);
      forall i | 0 <= i < |plain|
        ensures back[i] == plain[i]
      {
        XorTwice(plain[i], key[i % |key|]);
      }
      assert back == plain;
    }
  }

  // ---- The key table under interleaved steps ----

  /** Where a running operation stands between two lock acquisitions. */
  datatype Task =
    | RotateBegin
    | RotateRead(next: nat)
    | RotateStored(next: nat)
    | RotateDone(version: nat)
    | EncryptBegin(plain: Material)
    | EncryptRead(plain: Material, version: nat)
    | EncryptDone(outcome: Result<(Material, nat)>)

  datatype Issued = Issued(plain: Material, cipher: Material, version: nat)

  datatype World = World(keys: map<nat, Material>, current: nat, tasks: map<nat, Task>, issued: seq<Issued>)

  function Boot(derive: nat -> Material): World {
    World(map[1 := derive(1)], 1, map[], [])
  }

  datatype Action = StartRotate(id: nat) | StartEncrypt(id: nat, plain: Material) | Advance(id: nat)

  function GetKey(keys: map<nat, Material>, version: nat): Result<Material> {
    if version in keys then Ok(keys[version]) else Err(NotFound(version))
  }

  /** Looking up the key and encrypting, once the version is known. */
  function EncryptWith(keys: map<nat, Material>, plain: Material, version: nat): Result<(Material, nat)> {
    match GetKey(keys, version)
    case Err(e) => Err(e)
    case Ok(key) =>
      match CipherEncrypt(plain, key)
      case Err(e) => Err(e)
      case Ok(c) => Ok((c, version))
  }

  /** One critical section of one running operation. */
  function AdvanceTask(derive: nat -> Material, w: World, id: nat): World
    requires id in w.tasks
  {
    match w.tasks[id]
    case RotateBegin => w.(tasks := w.tasks[id := RotateRead(w.current + 1)])
    case RotateRead(n) => w.(keys := w.keys[n := derive(n)], tasks := w.tasks[id := RotateStored(n)])
    case RotateStored(n) => w.(current := n, tasks := w.tasks[id := RotateDone(n)])
    case RotateDone(_) => w
    case EncryptBegin(p) => w.(tasks := w.tasks[id := EncryptRead(p, w.current)])
    case EncryptRead(p, v) =>
      var r := EncryptWith(w.keys, p, v);
      w.(tasks := w.tasks[id := EncryptDone(r)],
         issued := if r.Ok? then w.issued + [Issued(p, r.value.0, r.value.1)] else w.issued)
    case EncryptDone(_) => w
  }

  function Step(derive: nat -> Material, w: World, a: Action): World {
    match a
    case StartRotate(id) => if id in w.tasks then w else w.(tasks := w.tasks[id := RotateBegin])
    case StartEncrypt(id, p) => if id in w.tasks then w else w.(tasks := w.tasks[id := EncryptBegin(p)])
    case Advance(id) => if id in w.tasks then AdvanceTask(derive, w, id) else w
  }

  function Run(derive: nat -> Material, w: World, actions: seq<Action>, n: nat): World
    requires n <= |actions|
  {
    if n == 0 then w else Step(derive, Run(derive, w, actions, n - 1), actions[n - 1])
  }

  // ---- Decryption ----

  function Decrypt(keys: map<nat, Material>, cipher: Material, version: nat): Result<Material> {
    match GetKey(keys, version)
    case Err(e) => Err(e)
    case Ok(key) => CipherDecrypt(cipher, key)
  }

  // ---- The invariant ----

  /** Versions are contiguous from 1 and each maps to its derived key. */
  ghost predicate Contiguous(derive: nat -> Material, keys: map<nat, Material>) {
    && (forall v :: v in keys <==> 1 <= v <= |keys|)
    && (forall v :: v in keys ==> keys[v] == derive(v))
  }

  ghost predicate TaskOk(keys: map<nat, Material>, t: Task) {
    match t
    case RotateRead(n) => 1 <= n <= |keys| + 1
    case RotateStored(n) => n in keys
    case RotateDone(n) => n in keys
    case EncryptRead(_, v) => v in keys
    case EncryptDone(r) => r.Ok?
    case _ => true
  }

  ghost predicate IssuedOk(keys: map<nat, Material>, i: Issued) {
    Decrypt(keys, i.cipher, i.version) == Ok(i.plain)
  }

  ghost predicate Inv(derive: nat -> Material, w: World) {
    && Contiguous(derive, w.keys)
    && w.current in w.keys
    && (forall id :: id in w.tasks ==> TaskOk(w.keys, w.tasks[id]))
    && (forall k :: 0 <= k < |w.issued| ==> IssuedOk(w.keys, w.issued[k]))
  }

  /** SHA-256 output is never empty. */
  ghost predicate Usable(derive: nat -> Material) {
    forall v: nat :: derive(v) != []
  }

  /** Storing a version at most one above the top keeps the table contiguous and everything it had. */
  lemma StoreKeepsTable(derive: nat -> Material, keys: map<nat, Material>, n: nat)
    requires Contiguous(derive, keys) && 1 <= n <= |keys| + 1
    ensures var stored := keys[n := derive(n)];
            && Contiguous(derive, stored) && |stored| >= |keys|
            && forall v :: v in keys ==> v in stored && stored[v] == keys[v]
  {
    var stored := keys[n := derive(n)];
    if n in keys {
      assert stored == keys;
    } else {
      assert stored.Keys == keys.Keys + {n};
      assert |stored| == |keys| + 1;
    }
  }

  lemma StoreStep(derive: nat -> Material, w: World, id: nat)
    requires Inv(derive, w) && id in w.tasks && w.tasks[id].RotateRead?
    ensures Inv(derive, AdvanceTask(derive, w, id))
  {
    StoreKeepsTable(derive, w.keys, w.tasks[id].next);
  }

  lemma EncryptStep(derive: nat -> Material, w: World, id: nat)
    requires Usable(derive) && Inv(derive, w) && id in w.tasks && w.tasks[id].EncryptRead?
    ensures Inv(derive, AdvanceTask(derive, w, id))
  {
    var p, v := w.tasks[id].plain, w.tasks[id].version;
    assert TaskOk(w.keys, w.tasks[id]);
    CipherRoundTrip(p, w.keys[v]);
  }

  lemma StepKeepsInv(derive: nat -> Material, w: World, a: Action)
    requires Usable(derive) && Inv(derive, w)
    ensures Inv(derive, Step(derive, w, a))
  {
    if a.Advance? && a.id in w.tasks {
      assert TaskOk(w.keys, w.tasks[a.id]);
      match w.tasks[a.id]
      case RotateRead(_) => StoreStep(derive, w, a.id);
      case EncryptRead(_, _) => EncryptStep(derive, w, a.id);
      case _ =>
    }
  }

  lemma {:induction false} RunKeepsInv(derive: nat -> Material, actions: seq<Action>, n: nat)
    requires Usable(derive) && n <= |actions|
    ensures Inv(derive, Run(derive, Boot(derive), actions, n))
  {
    if n == 0 {
      assert |Boot(derive).keys| == 1;
    } else {
      RunKeepsInv(derive, actions, n - 1);
      StepKeepsInv(derive, Run(derive, Boot(derive), actions, n - 1), actions[n - 1]);
    }
  }

  // ---- What it means for callers ----

  lemma StepKeepsKeys(derive: nat -> Material, w: World, a: Action, v: nat)
    requires Usable(derive) && Inv(derive, w) && v in w.keys
    ensures v in Step(derive, w, a).keys && Step(derive, w, a).keys[v] == w.keys[v]
  {
    if a.Advance? && a.id in w.tasks && w.tasks[a.id].RotateRead? {
      assert TaskOk(w.keys, w.tasks[a.id]);
      StoreKeepsTable(derive, w.keys, w.tasks[a.id].next);
    }
  }

  lemma {:induction false} KeysAreForever(derive: nat -> Material, actions: seq<Action>, m: nat, n: nat, v: nat)
    requires Usable(derive) && m <= n <= |actions|
    requires v in Run(derive, Boot(derive), actions, m).keys
    ensures v in Run(derive, Boot(derive), actions, n).keys
    ensures Run(derive, Boot(derive), actions, n).keys[v] == derive(v)
    decreases n
  {
    RunKeepsInv(derive, actions, n);
    if m < n {
      KeysAreForever(derive, actions, m, n - 1, v);
      RunKeepsInv(derive, actions, n - 1);
      StepKeepsKeys(derive, Run(derive, Boot(derive), actions, n - 1), actions[n - 1], v);
    }
  }

  lemma StepKeepsIssued(derive: nat -> Material, w: World, a: Action)
    ensures w.issued <= Step(derive, w, a).issued
  {
  }

  lemma {:induction false} IssuedIsForever(derive: nat -> Material, actions: seq<Action>, m: nat, n: nat)
    requires m <= n <= |actions|
    ensures Run(derive, Boot(derive), actions, m).issued <= Run(derive, Boot(derive), actions, n).issued
    decreases n
  {
    if m < n {
      IssuedIsForever(derive, actions, m, n - 1);
      StepKeepsIssued(derive, Run(derive, Boot(derive), actions, n - 1), actions[n - 1]);
    }
  }

  /**
    Under every interleaving: an encryption never fails, and whatever was issued
    after `m` steps still decrypts, under its recorded version, after `n >= m`.
  */
  lemma EveryCiphertextDecrypts(derive: nat -> Material, actions: seq<Action>, m: nat, n: nat)
    requires Usable(derive) && m <= n <= |actions|
    ensures var earlier := Run(derive, Boot(derive), actions, m);
            var now := Run(derive, Boot(derive), actions, n);
            && (forall id :: id in earlier.tasks && earlier.tasks[id].EncryptDone? ==> earlier.tasks[id].outcome.Ok?)
            && (forall k :: 0 <= k < |earlier.issued| ==>
                  Decrypt(now.keys, earlier.issued[k].cipher, earlier.issued[k].version) == Ok(earlier.issued[k].plain))
  {
    RunKeepsInv(derive, actions, m);
    RunKeepsInv(derive, actions, n);
    IssuedIsForever(derive, actions, m, n);
    var earlier := Run(derive, Boot(derive), actions, m);
    var now := Run(derive, Boot(derive), actions, n);
    forall id | id in earlier.tasks && earlier.tasks[id].EncryptDone?
      ensures earlier.tasks[id].outcome.Ok?
    {
      assert TaskOk(earlier.keys, earlier.tasks[id]);
    }
    forall k | 0 <= k < |earlier.issued|
      ensures IssuedOk(now.keys, earlier.issued[k])
    {
      assert now.issued[k] == earlier.issued[k];
    }
  }

  // ---- A rotation alone ----

  /** A rotation that is not interleaved with anything. */
  function RotateAlone(derive: nat -> Material, w: World, id: nat): World {
    Step(derive, Step(derive, Step(derive, Step(derive, w, StartRotate(id)), Advance(id)), Advance(id)), Advance(id))
  }

  /** Its three critical sections together store and publish the successor of the current version. */
  lemma RotateAloneMeaning(derive: nat -> Material, w: World, id: nat)
    requires id !in w.tasks
    ensures RotateAlone(derive, w, id)
         == World(w.keys[w.current + 1 := derive(w.current + 1)], w.current + 1,
                  w.tasks[id := RotateDone(w.current + 1)], w.issued)
  {
    var w1 := Step(derive, w, StartRotate(id));
    var w2 := Step(derive, w1, Advance(id));
    var w3 := Step(derive, w2, Advance(id));
    var w4 := Step(derive, w3, Advance(id));
    assert w2.tasks[id] == RotateRead(w.current + 1);
    assert w3.tasks[id] == RotateStored(w.current + 1);
    assert w4.tasks == w.tasks[id := RotateDone(w.current + 1)];
  }

  // ---- The provider object ----

  class InMemoryKeyProvider {
    const derive: nat -> Material
    var keys: map<nat, Material>
    var currentVersion: nat

    ghost predicate Valid()
      reads this
    {
      Usable(derive) && Contiguous(derive, keys) && currentVersion in keys
    }

    constructor (derive: nat -> Material)
      requires Usable(derive)
      ensures Valid() && this.derive == derive
      ensures keys == Boot(derive).keys && currentVersion == Boot(derive).current
    {
      this.derive := derive;
      keys, currentVersion := map[1 := derive(1)], 1;
      new;
      assert |keys| == 1;
    }

    /** Any version ever stored is found, with its derived key; any other is reported missing. */
    method GetKeyByVersion(version: nat) returns (r: Result<Material>)
      requires Valid()
      ensures r == if 1 <= version <= |keys| then Ok(derive(version)) else Err(NotFound(version))
    {
      r := GetKey(keys, version);
    }

    method GetCurrentKey() returns (r: Result<Material>)
      requires Valid()
      ensures r == Ok(derive(currentVersion))
    {
      r := GetKeyByVersion(currentVersion);
    }

    /** Without interference a rotation does what `RotateAloneMeaning` says. */
    method RotateKey() returns (r: Result<nat>)
      requires Valid()
      modifies this
      ensures Valid() && r == Ok(old(currentVersion) + 1)
      ensures currentVersion == old(currentVersion) + 1
      ensures keys == old(keys)[old(currentVersion) + 1 := derive(old(currentVersion) + 1)]
    {
      var next := currentVersion + 1;
      StoreKeepsTable(derive, keys, next);
      keys := keys[next := derive(next)];
      currentVersion := next;
      r := Ok(next);
    }
  }
}
