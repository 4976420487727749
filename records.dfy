/** One Okta System Log event, reduced to the columns the analyzer reads. */
module Records {
  import opened Wrappers

  /**
   * A row of the exported event log. Text columns may be missing and are
   * then None. The timestamp is whole seconds since an arbitrary epoch, and
   * the geolocation is given in degrees.
   */
  datatype Record = Record(
    uuid: Option<string>,
    timestamp: int,
    sessionId: Option<string>,          // authentication_context.external_session_id
    country: Option<string>,            // client.geographical_context.country
    eventType: Option<string>,          // event_type
    userAgent: Option<string>,          // client.user_agent.raw_user_agent
    ipAddress: Option<string>,          // client.ip_address
    latitude: real,                     // client.geographical_context.geolocation.lat
    longitude: real,                    // client.geographical_context.geolocation.lon
    displayMessage: Option<string>,     // display_message
    targetDisplayName: Option<string>)  // target0.display_name

  function UserAgentOf(r: Record): Option<string> { r.userAgent }

  function IpAddressOf(r: Record): Option<string> { r.ipAddress }
}
