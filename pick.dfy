/** Exercise material drawn from the vocabulary (src/lib/learn/pick.ts): a
    random selection of a context's entries and a four-way multiple-choice
    question. The shuffle is `Shuffling.Shuffle`. */
module Pick {
  import opened Seqs
  import opened Numbers
  import opened Strings
  import opened Shuffling

  datatype VocabEntry = VocabEntry(id: string, en: string, ru: string)

  /** The entries of a context; an unknown context has none. */
  function ContextEntries(vocab: map<string, seq<VocabEntry>>, ctx: string): seq<VocabEntry>
  {
    if ctx in vocab then vocab[ctx] else []
  }

  /** `pickFromContext(ctx, n)`, the vocabulary table being a parameter:
      the whole context shuffled when it has at most `n` entries, otherwise
      the first `n` of a shuffle. */
  method PickFromContext(vocab: map<string, seq<VocabEntry>>, ctx: string, n: int) returns (r: seq<VocabEntry>)
    ensures ctx !in vocab ==> r == []
    ensures n >= 0 ==> |r| == Min(n, |ContextEntries(vocab, ctx)|)
    ensures multiset(r) <= multiset(ContextEntries(vocab, ctx))
    ensures |ContextEntries(vocab, ctx)| <= n ==> multiset(r) == multiset(ContextEntries(vocab, ctx))
  {
    var base := ContextEntries(vocab, ctx);
    var shuffled := Shuffle(base);
    if |base| <= n {
      return shuffled;
    }
    r := SliceTo(shuffled, n);
    PrefixMultiset(r, shuffled);
  }

  /** The side of an entry a question shows or asks for. */
  function Side(e: VocabEntry, useRu: bool): string
  {
    if useRu then e.ru else e.en
  }

  /** The pool without the entry asked about, in pool order. */
  function Others(pool: seq<VocabEntry>, id: string): (r: seq<VocabEntry>)
    ensures forall x :: x in r <==> x in pool && x.id != id
  {
    if pool == [] then []
    else (if pool[0].id != id then [pool[0]] else []) + Others(pool[1..], id)
  }

  function Sides(s: seq<VocabEntry>, useRu: bool): (r: seq<string>)
    ensures |r| == |s|
    ensures forall i :: 0 <= i < |s| ==> r[i] == Side(s[i], useRu)
  {
    seq(|s|, i requires 0 <= i < |s| => Side(s[i], useRu))
  }

  datatype Mcq = Mcq(prompt: string, options: seq<string>, answerIndex: int)

  /** `makeMCQ(entry, pool, langPair)`: a pair naming Russian asks for the
      Russian side of an English prompt, any other pair the reverse; up to
      three distractors come from other entries of the pool, and the answer
      index points at the correct option. */
  method MakeMCQ(entry: VocabEntry, pool: seq<VocabEntry>, langPair: string) returns (q: Mcq)
    ensures var useRu := Contains(langPair, "↔RU");
      q.prompt == Side(entry, !useRu)
    ensures var useRu := Contains(langPair, "↔RU");
      0 <= q.answerIndex < |q.options| && q.options[q.answerIndex] == Side(entry, useRu)
    ensures |q.options| == 1 + Min(3, |Others(pool, entry.id)|) && 1 <= |q.options| <= 4
    ensures var useRu := Contains(langPair, "↔RU");
      forall k :: 0 <= k < |q.options| ==>
        q.options[k] == Side(entry, useRu) || q.options[k] in Sides(Others(pool, entry.id), useRu)
  {
    var useRu := Contains(langPair, "↔RU");
    var correct := Side(entry, useRu);
    var prompt := Side(entry, !useRu);
    var others := Others(pool, entry.id);
    var shuffledOthers := Shuffle(others);
    var chosen := SliceTo(shuffledOthers, 3);
    var distractors := Sides(chosen, useRu);
    var options := Shuffle([correct] + distractors);
    assert correct in multiset([correct] + distractors);
    assert correct in options;
    forall k | 0 <= k < |options|
      ensures options[k] == correct || options[k] in Sides(others, useRu)
    {
      assert options[k] in multiset([correct] + distractors);
      if options[k] != correct {
        var d := IndexOf(distractors, options[k]);
        assert chosen[d] == shuffledOthers[d];
        assert shuffledOthers[d] in multiset(others);
        var e := IndexOf(others, shuffledOthers[d]);
        assert Sides(others, useRu)[e] == options[k];
      }
    }
    q := Mcq(prompt, options, IndexOf(options, correct));
  }
}
