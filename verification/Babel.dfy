/** The routing daemon, whose dumps of installed routes both the node list and the link-quality
    monitor read, each with a pattern of its own. */
module Babel {
  /** The metric of a route that cannot be used. */
  const UNREACHABLE := 65535
}
