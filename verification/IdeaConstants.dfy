/** Numeric limits of the IDEA algorithm (lib/idea/constants.py). */
module IdeaConstants {
  const MINIMUM_HOURS_NO_TRAFFIC_FOR_PROFILE := 5
  const CONSECUTIVE_60_MINUTES := 60
  const Q95_REPLACEMENT_VALUE := 60.0
  const FCD_MEAN_MEDIAN_REPLACEMENT_VALUE := 0.0
  const MAX_ACCEPTABLE_CONSECUTIVE_ZEROS_Q95 := 35.0
  const THRESHOLD_OF_USEFUL_DATA_PROFILE := 30

  const MAX_PROFILE_VALUE := 54.0
  const COV_DROP_LIMIT := 8.0
  const COV_HIGH := 6.0
  const MINIMUM_PROFILE_VALUE := 5.0
  const MISSING_PROFILE_VALUE := 60.0
  const COV_THRESHOLD_ZEROS_OR_ONE_VALUE := 3.0
  const CLOSED_LIMIT := 0.75
  const OPEN_LIMIT := 0.15
  const INITIAL_RUNNING_MEAN := 0.5

  const DECAY_PARAM := 0.5
  const K_START := 0.025
  const K_MAX := 10.0
}
