/** The order in which a cipher applies its layers, for any layers: why reversing the rounds reverses the cipher. */
module Rounds {

  /** rounds of substitution, mixing and key addition; the last round does not mix. */
  datatype Layers<!B> = Layers(rounds: nat, key: (B, nat) -> B, sub: B -> B, unsub: B -> B, mix: B -> B, unmix: B -> B)
  {
    ghost predicate KeyInverts(s: B, n: nat) { key(key(s, n), n) == s }
    ghost predicate SubInverts(s: B) { unsub(sub(s)) == s && sub(unsub(s)) == s }
    ghost predicate MixInverts(s: B) { unmix(mix(s)) == s && mix(unmix(s)) == s }
  }

  ghost predicate Invertible<B(!new)>(l: Layers<B>) {
    && l.rounds >= 1
    && (forall s, n :: l.KeyInverts(s, n))
    && (forall s :: l.SubInverts(s))
    && (forall s :: l.MixInverts(s))
  }

  /** The state after round n of encryption, the last round excepted. */
  function EncryptRounds<B>(l: Layers<B>, s: B, n: nat): B {
    if n == 0 then l.key(s, 0) else l.key(l.mix(l.sub(EncryptRounds(l, s, n - 1))), n)
  }

  function Encrypt<B>(l: Layers<B>, s: B): B
    requires l.rounds >= 1
  {
    l.key(l.sub(EncryptRounds(l, s, l.rounds - 1)), l.rounds)
  }

  /** The state of decryption when the last round down to round n are undone. */
  function DecryptRounds<B>(l: Layers<B>, s: B, n: nat): B
    requires n <= l.rounds
    decreases l.rounds - n
  {
    if n == l.rounds then l.key(s, n) else l.unmix(l.key(l.unsub(DecryptRounds(l, s, n + 1)), n))
  }

  function Decrypt<B>(l: Layers<B>, s: B): B
    requires l.rounds >= 1
  {
    l.key(l.unsub(DecryptRounds(l, s, 1)), 0)
  }

  /** Decrypting e down to round n + 1 meets encryption of s after round n. */
  lemma {:induction false} Meet<B(!new)>(l: Layers<B>, s: B, e: B, n: nat)
    requires Invertible(l) && n < l.rounds
    requires e == Encrypt(l, s)
    ensures DecryptRounds(l, e, n + 1) == l.sub(EncryptRounds(l, s, n))
    decreases l.rounds - n
  {
    if n == l.rounds - 1 {
      assert l.KeyInverts(l.sub(EncryptRounds(l, s, n)), l.rounds);
    } else {
      Meet(l, s, e, n + 1);
      var x := l.sub(EncryptRounds(l, s, n));
      assert l.SubInverts(EncryptRounds(l, s, n + 1));
      assert l.KeyInverts(l.mix(x), n + 1);
      assert l.MixInverts(x);
    }
  }

  /** Encrypting p up to round n meets decryption of s down to round n + 1. */
  lemma {:induction false} MeetBack<B(!new)>(l: Layers<B>, s: B, p: B, n: nat)
    requires Invertible(l) && n < l.rounds
    requires p == Decrypt(l, s)
    ensures EncryptRounds(l, p, n) == l.unsub(DecryptRounds(l, s, n + 1))
  {
    var u := l.unsub(DecryptRounds(l, s, n + 1));
    if n == 0 {
      assert l.KeyInverts(u, 0);
    } else {
      MeetBack(l, s, p, n - 1);
      assert l.SubInverts(DecryptRounds(l, s, n));
      assert l.MixInverts(l.key(u, n));
      assert l.KeyInverts(u, n);
    }
  }

  /** Each direction undoes the other. */
  lemma RoundTrip<B(!new)>(l: Layers<B>, s: B)
    requires Invertible(l)
    ensures Decrypt(l, Encrypt(l, s)) == s && Encrypt(l, Decrypt(l, s)) == s
  {
    Meet(l, s, Encrypt(l, s), 0);
    assert l.SubInverts(l.key(s, 0)) && l.KeyInverts(s, 0);
    MeetBack(l, s, Decrypt(l, s), l.rounds - 1);
    assert l.SubInverts(DecryptRounds(l, s, l.rounds)) && l.KeyInverts(s, l.rounds);
  }
}
