/**
 * Which requested subtitle languages a video still lacks. Both revisions of
 * the downloader walk the video's subtitle streams in order; each stream that
 * counts removes the first occurrence of its language code from the list of
 * requested codes. The current revision lets a stream count only when its
 * format is on the allow-list (when there is one); the old revision has no
 * allow-list, which is `fp == None` here.
 */
module LanguageGap {
  import opened Wrappers
  import opened Seqs
  import opened PlexMedia

  /** The stream is taken into account: there is no allow-list, or its format is on it. */
  predicate Counts(fp: Option<seq<string>>, t: SubtitleStream) {
    fp.None? || (t.format.Some? && t.format.value in fp.value)
  }

  /** The language codes a stream takes off the list: its own, when it counts and has one. */
  function CodesOf(fp: Option<seq<string>>, t: SubtitleStream): seq<string>
  {
    if Counts(fp, t) && t.languageCode.Some? then [t.languageCode.value] else []
  }

  /** One turn of the loop over the streams: a stream that counts removes one occurrence of its code, if the code is still requested. */
  function Step(langs: seq<string>, fp: Option<seq<string>>, t: SubtitleStream): seq<string>
  {
    if !Counts(fp, t) then langs
    else if t.languageCode.Some? && t.languageCode.value in langs then RemoveFirst(langs, t.languageCode.value)
    else langs
  }

  /** One turn takes exactly the stream's counted code off the list (as a multiset) and keeps the order of the rest. */
  lemma StepEffect(langs: seq<string>, fp: Option<seq<string>>, t: SubtitleStream)
    ensures multiset(Step(langs, fp, t)) == multiset(langs) - multiset(CodesOf(fp, t))
    ensures IsSubsequence(Step(langs, fp, t), langs)
  {
    SubsequenceRefl(langs);
    if Counts(fp, t) && t.languageCode.Some? {
      RemoveFirstSubsequence(langs, t.languageCode.value);
      RemoveFirstMultiset(langs, t.languageCode.value);
    }
  }

  /** The requested codes left after every stream has had its turn. */
  function Remaining(langs: seq<string>, fp: Option<seq<string>>, tracks: seq<SubtitleStream>): seq<string>
    decreases |tracks|
  {
    if tracks == [] then langs else Remaining(Step(langs, fp, tracks[0]), fp, tracks[1..])
  }

  /** All codes the streams take off the list, in stream order. */
  function Codes(fp: Option<seq<string>>, tracks: seq<SubtitleStream>): seq<string>
  {
    if tracks == [] then [] else CodesOf(fp, tracks[0]) + Codes(fp, tracks[1..])
  }

  /** The streams that count. */
  function CountedTracks(fp: Option<seq<string>>, tracks: seq<SubtitleStream>): (r: seq<SubtitleStream>)
    ensures forall i :: 0 <= i < |r| ==> Counts(fp, r[i])
  {
    if tracks == [] then []
    else (if Counts(fp, tracks[0]) then [tracks[0]] else []) + CountedTracks(fp, tracks[1..])
  }

  /** Running the loop over `a + b` is running it over `a` and then over `b`. */
  lemma {:induction false} RemainingAppend(langs: seq<string>, fp: Option<seq<string>>, a: seq<SubtitleStream>, b: seq<SubtitleStream>)
    ensures Remaining(langs, fp, a + b) == Remaining(Remaining(langs, fp, a), fp, b)
    decreases |a|
  {
    if a != [] {
      assert (a + b)[0] == a[0];
      assert (a + b)[1..] == a[1..] + b;
      RemainingAppend(Step(langs, fp, a[0]), fp, a[1..], b);
    } else {
      assert a + b == b;
    }
  }

  /** A stream that does not count leaves the list as it is. */
  lemma StepSkips(langs: seq<string>, fp: Option<seq<string>>, t: SubtitleStream)
    requires !Counts(fp, t)
    ensures Step(langs, fp, t) == langs
  {
  }

  /** A stream that counts removes the first occurrence of its code, when the code is still requested. */
  lemma StepCounts(langs: seq<string>, fp: Option<seq<string>>, t: SubtitleStream)
    requires Counts(fp, t)
    ensures Step(langs, fp, t) ==
      if t.languageCode.Some? && t.languageCode.value in langs then RemoveFirst(langs, t.languageCode.value) else langs
  {
  }

  /** One more stream is one more turn of the loop. */
  lemma RemainingSnoc(langs: seq<string>, fp: Option<seq<string>>, a: seq<SubtitleStream>, t: SubtitleStream)
    ensures Remaining(langs, fp, a + [t]) == Step(Remaining(langs, fp, a), fp, t)
  {
    RemainingAppend(langs, fp, a, [t]);
    assert [t][1..] == [];
  }

  lemma RemainingPrefixStep(langs: seq<string>, fp: Option<seq<string>>, tracks: seq<SubtitleStream>, i: int)
    requires 0 <= i < |tracks|
    ensures Remaining(langs, fp, tracks[..i + 1]) == Step(Remaining(langs, fp, tracks[..i]), fp, tracks[i])
  {
    assert tracks[..i + 1] == tracks[..i] + [tracks[i]];
    RemainingSnoc(langs, fp, tracks[..i], tracks[i]);
  }

  /** The missing languages keep the order they were requested in, and nothing is added. */
  lemma {:induction false} RemainingSubsequence(langs: seq<string>, fp: Option<seq<string>>, tracks: seq<SubtitleStream>)
    ensures IsSubsequence(Remaining(langs, fp, tracks), langs)
    decreases |tracks|
  {
    if tracks == [] {
      SubsequenceRefl(langs);
    } else {
      var s := Step(langs, fp, tracks[0]);
      StepEffect(langs, fp, tracks[0]);
      RemainingSubsequence(s, fp, tracks[1..]);
      SubsequenceTrans(Remaining(s, fp, tracks[1..]), s, langs);
    }
  }

  /** Exactly one requested occurrence per counted code is gone: the missing languages are the requested ones minus the codes of the streams that count, as multisets. */
  lemma {:induction false} RemainingMultiset(langs: seq<string>, fp: Option<seq<string>>, tracks: seq<SubtitleStream>)
    ensures multiset(Remaining(langs, fp, tracks)) == multiset(langs) - multiset(Codes(fp, tracks))
    decreases |tracks|
  {
    if tracks != [] {
      var c := CodesOf(fp, tracks[0]);
      var rest := Codes(fp, tracks[1..]);
      RemainingMultiset(Step(langs, fp, tracks[0]), fp, tracks[1..]);
      StepEffect(langs, fp, tracks[0]);
      MultisetMinusAppend(multiset(langs), c, rest);
    }
  }

  lemma MultisetMinusAppend<T>(m: multiset<T>, a: seq<T>, b: seq<T>)
    ensures (m - multiset(a)) - multiset(b) == m - multiset(a + b)
  {
    assert multiset(a + b) == multiset(a) + multiset(b);
  }

  /** A stream whose format is not on the allow-list changes nothing: only the streams that count matter. */
  lemma {:induction false} IgnoredTracksNoEffect(langs: seq<string>, fp: Option<seq<string>>, tracks: seq<SubtitleStream>)
    ensures Remaining(langs, fp, tracks) == Remaining(langs, fp, CountedTracks(fp, tracks))
    decreases |tracks|
  {
    if tracks != [] {
      var t := tracks[0];
      var rest := CountedTracks(fp, tracks[1..]);
      if Counts(fp, t) {
        IgnoredTracksNoEffect(Step(langs, fp, t), fp, tracks[1..]);
        assert CountedTracks(fp, tracks) == [t] + rest;
        assert ([t] + rest)[0] == t && ([t] + rest)[1..] == rest;
      } else {
        assert Step(langs, fp, t) == langs;
        IgnoredTracksNoEffect(langs, fp, tracks[1..]);
        assert CountedTracks(fp, tracks) == rest;
      }
    }
  }

  /** A video misses no language exactly when its counted streams cover every requested occurrence. */
  lemma NothingMissingIff(langs: seq<string>, fp: Option<seq<string>>, tracks: seq<SubtitleStream>)
    ensures Remaining(langs, fp, tracks) == [] <==> multiset(langs) <= multiset(Codes(fp, tracks))
  {
    RemainingMultiset(langs, fp, tracks);
    var r := Remaining(langs, fp, tracks);
    var m := multiset(langs);
    var c := multiset(Codes(fp, tracks));
    if m <= c {
      assert multiset(r) == multiset{} by {
        forall x ensures multiset(r)[x] == 0 {
          assert m[x] <= c[x];
        }
      }
    }
    if r == [] {
      forall x ensures m[x] <= c[x] {
        assert (m - c)[x] == 0;
      }
    }
  }

  /** A requested code with no counted stream of that language is still missing. */
  lemma UncoveredLanguageMissing(langs: seq<string>, fp: Option<seq<string>>, tracks: seq<SubtitleStream>, code: string)
    requires code in langs && code !in Codes(fp, tracks)
    ensures code in Remaining(langs, fp, tracks)
  {
    RemainingMultiset(langs, fp, tracks);
    assert multiset(langs)[code] > 0;
    assert multiset(Codes(fp, tracks))[code] == 0;
    assert multiset(Remaining(langs, fp, tracks))[code] > 0;
  }

  /** An empty request list stays empty, whatever the streams. */
  lemma {:induction false} RemainingOfNothing(fp: Option<seq<string>>, tracks: seq<SubtitleStream>)
    ensures Remaining([], fp, tracks) == []
    decreases |tracks|
  {
    if tracks != [] {
      assert Step([], fp, tracks[0]) == [];
      RemainingOfNothing(fp, tracks[1..]);
    }
  }
}
