/** Message keys as strings, and the file names derived from them. */
module Keys {
  import opened Types

  /** "msg:{queue}:{id}" */
  function Render(k: Key): string {
    "msg:" + k.queue + ":" + k.id
  }

  predicate LegalQueue(q: string) {
    ':' !in q
  }

  /** Generated ids are hexadecimal groups joined by '-'. */
  predicate LegalId(id: string) {
    ':' !in id && '_' !in id
  }

  predicate Legal(k: Key) {
    LegalQueue(k.queue) && LegalId(k.id)
  }

  /** Position of the last c among the first n characters, -1 if there is none. */
  function LastIndex(s: string, c: char, n: nat): (r: int)
    requires n <= |s|
    ensures -1 <= r < n
    ensures r >= 0 ==> s[r] == c
    ensures forall j :: r < j < n ==> s[j] != c
  {
    if n == 0 then -1 else if s[n - 1] == c then n - 1 else LastIndex(s, c, n - 1)
  }

  /** Position of the first c at or after i, |s| if there is none. */
  function FirstIndex(s: string, c: char, i: nat): (r: nat)
    requires i <= |s|
    ensures i <= r <= |s|
    ensures r < |s| ==> s[r] == c
    ensures forall j :: i <= j < r ==> s[j] != c
    decreases |s| - i
  {
    if i == |s| || s[i] == c then i else FirstIndex(s, c, i + 1)
  }

  /** Message id of a key string: the text after its last ':'. None where the source
      answers "invalid message key format". */
  function IdOf(key: string): Option<string> {
    var p := LastIndex(key, ':', |key|);
    if p < 0 then None else Some(key[p + 1..])
  }

  /** Text between the first two ':' of a key string, "" when there are fewer than two. */
  function QueueOf(key: string): string {
    var p := FirstIndex(key, ':', 0);
    if p == |key| then ""
    else
      var q := FirstIndex(key, ':', p + 1);
      if q == |key| then "" else key[p + 1..q]
  }

  function SafeChar(c: char): char {
    if c == ':' then '_' else c
  }

  /** std::replace of ':' by '_', the stem of a lease or delayed meta file. */
  function SafeName(key: string): string {
    seq(|key|, i requires 0 <= i < |key| => SafeChar(key[i]))
  }

  /** The shape of keys and meta file names. */
  lemma RenderShape(k: Key)
    ensures |Render(k)| == 5 + |k.queue| + |k.id| && |SafeName(Render(k))| == |Render(k)|
    ensures Render(k)[..4] == "msg:" && Render(k)[4..4 + |k.queue|] == k.queue
    ensures Render(k)[4 + |k.queue|] == ':' && Render(k)[5 + |k.queue|..] == k.id
    ensures forall i :: 0 <= i < |Render(k)| ==>
      SafeName(Render(k))[i] == if Render(k)[i] == ':' then '_' else Render(k)[i]
  {
  }

  lemma IdOfSplit(key: string, head: string, id: string)
    requires key == head + ":" + id && ':' !in id
    ensures IdOf(key) == Some(id)
  {
    var n := |head|;
    assert key[n] == ':' && key[n + 1..] == id;
    forall j | n < j < |key|
      ensures key[j] != ':'
    {
      assert key[j] == id[j - n - 1];
    }
    assert LastIndex(key, ':', |key|) == n;
  }

  lemma QueueOfSplit(key: string, head: string, queue: string, tail: string)
    requires key == head + ":" + queue + ":" + tail && ':' !in head && ':' !in queue
    ensures QueueOf(key) == queue
  {
    var p, q := |head|, |head| + 1 + |queue|;
    assert key[p] == ':' && key[q] == ':' && key[p + 1..q] == queue;
    forall j | 0 <= j < p
      ensures key[j] != ':'
    {
      assert key[j] == head[j];
    }
    forall j | p < j < q
      ensures key[j] != ':'
    {
      assert key[j] == queue[j - p - 1];
    }
    assert FirstIndex(key, ':', 0) == p;
    assert FirstIndex(key, ':', p + 1) == q;
  }

  /** Splitting a rendered key gives back the queue and the id it was built from. */
  lemma RenderRoundTrip(k: Key)
    requires Legal(k)
    ensures IdOf(Render(k)) == Some(k.id)
    ensures QueueOf(Render(k)) == k.queue
  {
    var head := "msg";
    assert Render(k) == head + ":" + k.queue + ":" + k.id;
    IdOfSplit(Render(k), head + ":" + k.queue, k.id);
    QueueOfSplit(Render(k), head, k.queue, k.id);
  }

  lemma RenderInjective(a: Key, b: Key)
    requires Legal(a) && Legal(b) && Render(a) == Render(b)
    ensures a == b
  {
    RenderRoundTrip(a);
    RenderRoundTrip(b);
  }

  /** A key string with the same meta file as a legal key names the same id, or an id no
      message can have: the reason a caller's odd key string never reaches another message. */
  lemma AliasNamesSameId(key: string, k: Key)
    requires Legal(k) && SafeName(key) == SafeName(Render(k))
    requires IdOf(key).Some? && LegalId(IdOf(key).value)
    ensures IdOf(key).value == k.id
  {
    RenderRoundTrip(k);
    SameMetaSameId(key, Render(k));
  }

  lemma SameMetaSameId(a: string, b: string)
    requires IdOf(a).Some? && LegalId(IdOf(a).value)
    requires IdOf(b).Some? && LegalId(IdOf(b).value)
    requires SafeName(a) == SafeName(b)
    ensures IdOf(a) == IdOf(b)
  {
    var p, q := LastIndex(a, ':', |a|), LastIndex(b, ':', |b|);
    IdSeparator(a);
    IdSeparator(b);
    var s := SafeName(a);
    assert p == q;
    forall j | p < j < |s|
      ensures a[j] == b[j]
    {
      assert s[j] == a[j] && SafeName(b)[j] == b[j];
    }
    assert a[p + 1..] == b[p + 1..];
  }

  /** With a legal id, the last ':' of a key is the last '_' of its meta file name, and the
      characters behind it are unchanged. */
  lemma IdSeparator(key: string)
    requires IdOf(key).Some? && LegalId(IdOf(key).value)
    ensures LastIndex(SafeName(key), '_', |key|) == LastIndex(key, ':', |key|)
    ensures forall j :: LastIndex(key, ':', |key|) < j < |key| ==> SafeName(key)[j] == key[j]
  {
    var p := LastIndex(key, ':', |key|);
    var s := SafeName(key);
    assert s[p] == '_';
    forall j | p < j < |key|
      ensures s[j] == key[j] && s[j] != '_'
    {
      assert key[j] == IdOf(key).value[j - p - 1];
      assert key[j] in IdOf(key).value;
    }
  }

  /** Meta file names are injective on legal keys. */
  lemma SafeNameInjective(a: Key, b: Key)
    requires Legal(a) && Legal(b) && SafeName(Render(a)) == SafeName(Render(b))
    ensures a == b
  {
    RenderRoundTrip(a);
    AliasNamesSameId(Render(a), b);
    var s, t := SafeName(Render(a)), SafeName(Render(b));
    assert |s| == |t|;
    forall j | 0 <= j < |a.queue|
      ensures a.queue[j] == b.queue[j]
    {
      assert a.queue[j] in a.queue && b.queue[j] in b.queue;
      assert s[4 + j] == a.queue[j] && t[4 + j] == b.queue[j];
    }
  }

  /** Without the ban on '_' in ids two different messages share one meta file. */
  lemma UnderscoreIdsCollide()
    ensures var a, b := Key("a", "b_c"), Key("a_b", "c");
            a != b && LegalQueue(a.queue) && LegalQueue(b.queue) && ':' !in a.id && ':' !in b.id
            && SafeName(Render(a)) == SafeName(Render(b))
  {
  }
}
