/**
 The device API's record types (clients/beoremote/models), reduced to the
 fields the modelled code reads or writes. A Go pointer field is an Option;
 a Go named string type is a string, its constants are `const`s here.
 */
module Models {
  import opened Results

  // --- /BeoZone/System/Products

  datatype Integrated = Integrated(role: string, jid: string)

  /** `ProductPrimaryExperience`: only the playback state is used. */
  datatype ProductExperience = ProductExperience(state: string)

  datatype Product = Product(
    jid: string,
    friendlyName: string,
    online: bool,
    primaryExperience: Option<ProductExperience>,
    integrated: Option<Integrated>)

  const RoleIntegratedMaster := "integratedMaster"
  const RoleIntegratedSlave := "integratedSlave"

  // --- /BeoDevice/powerManagement/standby

  const PowerStateOn := "on"

  // --- /BeoZone/Zone/PlayQueue

  datatype DeezerRef = DeezerRef(id: int)

  datatype Image = Image(url: string, size: string, mediaType: string)

  const SizeSmall := "small"
  const SizeMedium := "medium"
  const SizeLarge := "large"

  datatype Artist = Artist(id: string, name: string, nameNormalized: string, deezer: DeezerRef, image: seq<Image>)

  datatype Track = Track(
    deezer: Option<DeezerRef>,
    id: string,
    name: string,
    artistName: string,
    artist: seq<Artist>,
    image: seq<Image>)

  const BehaviourPlanned := "planned"

  datatype PlayQueueItem = PlayQueueItem(id: string, behaviour: string, track: Option<Track>)

  const RepeatOff := "off"
  const RepeatCurrentItem := "repeatCurrentItem"
  const RepeatAll := "repeatAll"
  const RepeatUnknown := "unknown"

  const RandomUnknown := "unknown"
  const RandomRandom := "random"
  const RandomOff := "off"

  const DeezerPlaylist := "deezerPlayList"

  datatype Container = Container(kind: string, deezer: DeezerRef)

  datatype PlayQueue = PlayQueue(
    id: string,
    offset: int,
    count: int,
    startOffset: int,
    total: int,
    playNowId: string,
    random: string,
    repeat: string,
    items: seq<PlayQueueItem>,
    container: Container)

  /** The Go zero value of `PlayQueue`. */
  const EmptyPlayQueue := PlayQueue("", 0, 0, 0, 0, "", "", "", [], Container("", DeezerRef(0)))

  // --- /BeoHome/trigger/timerList

  const Monday := "monday"
  const Tuesday := "tuesday"
  const Wednesday := "wednesday"
  const Thursday := "thursday"
  const Friday := "friday"
  const Saturday := "saturday"
  const Sunday := "sunday"

  // --- /BeoNotify/Notifications

  /** The notification envelope; `data` stays raw JSON. */
  datatype Notification = Notification(timestamp: string, kind: string, typ: string, data: seq<bv8>)
}
