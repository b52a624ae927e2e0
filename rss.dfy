/** Picking the audio enclosure of a podcast feed. The feed is given already
    parsed, as its list of entries, each with its list of links; a link is the
    dictionary of its attributes. */
module Rss {
  import opened Wrappers

  datatype Link = Link(attrs: map<string, string>)
  datatype Entry = Entry(links: seq<Link>)

  const AudioMpeg := "audio/mpeg"

  predicate IsAudio(l: Link)
  {
    "type" in l.attrs && l.attrs["type"] == AudioMpeg
  }

  /** The key whose lookup raises `KeyError` when the loop reaches `l`: `type`
      on every link, `href` on an audio link. */
  function Fault(l: Link): (k: Option<string>)
    ensures k.None? ==> "type" in l.attrs && (IsAudio(l) ==> "href" in l.attrs)
  {
    if "type" !in l.attrs then Some("type")
    else if l.attrs["type"] == AudioMpeg && "href" !in l.attrs then Some("href")
    else None
  }

  /** `get_audio_link`: the href of the last `audio/mpeg` link of the first
      entry, `None` when there is no entry or no such link, and the `KeyError`
      of the first link that lacks a key the loop looks up. */
  method GetAudioLink(entries: seq<Entry>) returns (r: Result<Option<string>>)
    ensures entries == [] ==> r == Ok(None)
    ensures entries != [] ==>
      var links := entries[0].links;
      && (r.Err? <==> exists k :: 0 <= k < |links| && Fault(links[k]).Some?)
      && (r.Err? ==> exists k :: && 0 <= k < |links| && Fault(links[k]).Some?
                                 && (forall j :: 0 <= j < k ==> Fault(links[j]).None?)
                                 && r.error == KeyError(Fault(links[k]).value))
      && (r == Ok(None) <==> forall k :: 0 <= k < |links| ==> Fault(links[k]).None? && !IsAudio(links[k]))
      && (r.Ok? && r.value.Some? ==>
            exists k :: && 0 <= k < |links| && IsAudio(links[k])
                        && "href" in links[k].attrs && r.value.value == links[k].attrs["href"]
                        && forall j :: k < j < |links| ==> !IsAudio(links[j]))
  {
    if |entries| == 0 {
      return Ok(None);
    }
    var links := entries[0].links;
    var res: Option<string> := None;
    var i := 0;
    while i < |links|
      invariant 0 <= i <= |links|
      invariant forall j :: 0 <= j < i ==> Fault(links[j]).None?
      invariant res.None? <==> forall j :: 0 <= j < i ==> !IsAudio(links[j])
      invariant res.Some? ==>
        exists k :: && 0 <= k < i && IsAudio(links[k])
                    && "href" in links[k].attrs && res.value == links[k].attrs["href"]
                    && forall j :: k < j < i ==> !IsAudio(links[j])
    {
      var link := links[i];
      if "type" !in link.attrs {
        return Err(KeyError("type"));
      }
      if link.attrs["type"] == AudioMpeg {
        if "href" !in link.attrs {
          return Err(KeyError("href"));
        }
        res := Some(link.attrs["href"]);
      }
      i := i + 1;
    }
    return Ok(res);
  }
}
