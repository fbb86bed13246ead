/** What an entity reports to Home Assistant as its state. */
module Host {

  datatype HostState =
    | On
    | Off
    | Unavailable
    | Shown(text: string)
}
